# Trader_Log bot: a verified model of its conversation core

Trader_Log is a Telegram bot that lets a trader log a closed trade in three
turns:

1. `/logtrade <TradingView link>`
2. the outcome, as free text ("+500", "I profited 500", "Lost 2 hundred")
3. how the trade felt

The bot then writes one row to the `trades` table. This project models the
part of `bot.py` that decides what happens on each turn:

- **The conversation state machine.** This covers `log_trade` and
  `handle_message`. The state has three parts: the `user_states` dictionary,
  each user's `context.user_data` (the pending link and outcome), and the rows
  inserted into `trades`. `Conversation.OnLogTrade` and `Conversation.OnText`
  give the effect of one event as a function of that state.
  `Conversation.TradeBot` keeps the same state in fields, and its methods
  update them in place the way the handlers do. Each method is proved equal
  to the function for its event and to preserve the invariant
  `Conversation.Consistent`.
- **The outcome parser.** `parse_outcome` lower-cases the text and replaces
  the substrings `hundred` and `thousand`. It then asks the word-to-number
  library, which is a parameter here. When the library fails, the parser
  falls back to the first token that is sign characters followed by digits.
- **Sentiment post-processing.** The classifier's labels and scores are an
  input. From them the model takes the first label with the top score, maps
  it into the trader vocabulary, and picks the advice. If the classifier call
  fails, the fallback replies are used.
- **The `/stats` reply choice.** The model decides, from the metrics row, which
  reply and which closing tip to send.

Python string operations are modelled in the `PyText` module: `lower`,
`strip`, `split()`, `replace`, `lstrip`, `isdigit`, `in` on strings, and `int`
on a token.

Outside effects are inputs to the model:

- the word-to-number library: a function `string -> Option<int>`;
- the classifier's HTTP answer: a `Sentiment.Response`;
- whether the insert into `trades` returned or raised: a `bool`;
- the rows returned by the metrics stored procedure: a sequence of maps.

Some of what `bot.py` does is easy to miss. The model follows the code in
each case:

- **The link check is a case-sensitive substring test.** bot.py:51 only checks
  that `"tradingview.com"` is in the argument. The error reply at bot.py:67
  shows an `https://tradingview.com/chart/...` link, but nothing checks the
  scheme, and there is no case folding. So `tradingview.com` and
  `http://nottradingview.com.example` are accepted, and
  `https://TradingView.com/chart` is refused.
- **A failed insert does not reset the conversation.** When the insert at
  bot.py:143 raises, the reset at bot.py:151 is never reached. The user stays
  in "awaiting_sentiment" with link and outcome kept, and the next text
  commits them (`FailedInsertCanBeRetried`).
- **Words never make an outcome negative.** bot.py:62 offers "Lost two
  hundred" as a way to report a loss, and bot.py:119 offers "Lost 2 hundred".
  No sign is inferred from words, so "Lost 2 hundred" is recorded as 2, not
  -200. The unit word becomes a separate `00` token, which is also why
  "3 hundred" (the format named at bot.py:77) is 3.
- **Only `hundred` and `thousand` are replaced** (bot.py:71). `k` and `m` are
  not, so "3k" matches no fallback token.
- **A token with two signs raises.** A token such as `+-5` passes the filter
  at bot.py:78, but `int` raises on it. `parse_outcome` therefore raises
  instead of returning `None`, and the handler sends nothing.

## Model

| member | source | states |
|---|---|---|
| OutcomeParser.ParseOutcome | bot.py:70-79 | when the word-to-number library gives a value for the normalized text, that value is the outcome; otherwise, over the `split()` tokens of the normalized text, the parser raises exactly when some token passes the filter with two or more signs, returns `None` exactly when no token passes the filter, and else returns the signed value of the first token that passes |
| OutcomeParser.Normalize | bot.py:71 | the normalized text has no ASCII capital and no occurrence of "hundred" or "thousand" left |
| OutcomeParser.UnitsReplaced | bot.py:71 | the two `replace` calls, applied to lower-cased text, leave no "hundred", no "thousand" and no ASCII capital |
| OutcomeParser.FromTokens | bot.py:78-79 | the fallback returns `None` exactly when no token passes the filter, raises exactly when `int` raises on some filtered token, and otherwise returns `int` of the first filtered token |
| OutcomeParser.FromTokensSpec | bot.py:78-79 | the fallback raises exactly when some filtered token has two or more signs; it returns `None` exactly when no token passes the filter; otherwise it returns the signed value of the first token that passes |
| OutcomeParser.IntOfCandidate | bot.py:78 | `int` on a token that passes the filter raises exactly when the token has two or more leading signs; otherwise it gives the token's signed decimal value |
| OutcomeParser.Numbers | bot.py:78 | the comprehension raises exactly when `int` raises on some filtered token; otherwise its k-th number is `int` of the k-th filtered token |
| OutcomeParser.NumbersRaise | bot.py:78 | the comprehension raises exactly when some token passes the filter with two or more signs |
| OutcomeParser.NumbersHead | bot.py:79 | `numbers[0]` is `int` of the first filtered token |
| OutcomeParser.CandidatesEmpty | bot.py:78-79 | the filtered list is empty exactly when no token passes `lstrip('-+').isdigit()` |
| OutcomeParser.CandidatesHead | bot.py:78-79 | the first token that passes the filter heads the filtered list |
| OutcomeParser.CandidatesOfOne | bot.py:78 | a lone token is kept exactly when it passes the filter |
| OutcomeParser.CandidatesAppend | bot.py:78 | the filter works token by token: filtering a concatenation is the concatenation of the filtered parts |
| OutcomeParser.BadCandidateCons | bot.py:78 | a filtered token with two signs is either the first token or one in the rest |
| OutcomeParser.FirstCandidateExists | bot.py:78-79 | when some token passes the filter, a first such token exists |
| OutcomeParser.LowerKeepsOutMinus | bot.py:71 | lower-casing brings in no minus sign |
| OutcomeParser.SignedLiteral | bot.py:70-79 | a bare literal with at most one sign parses to its own signed value whenever the library raises on it or agrees with it |
| OutcomeParser.NegativeNeedsMinus | bot.py:70-79 | when the library raises and the text has no `-`, any outcome found is non-negative: no sign comes from words |
| OutcomeParser.TakeToken | bot.py:78-79 | a leading candidate with at most one sign is the outcome, unless a later token makes `int` raise |
| OutcomeParser.SkipToken | bot.py:78 | a token that fails the filter does not affect the scan |
| OutcomeParser.RaiseToken | bot.py:78 | a candidate with two signs makes the whole scan raise, whatever follows it |
| OutcomeParser.TwoSigns | bot.py:78 | two signs followed by digits pass the `lstrip('-+').isdigit()` filter |
| OutcomeParser.NormalizeOfLiteral | bot.py:71 | normalization leaves text made only of signs and digits unchanged |
| OutcomeExamples.PlusFiveHundred | bot.py:61 | "+500" gives 500 when the library raises |
| OutcomeExamples.MinusTwoHundred | bot.py:62 | "-200" gives -200 when the library raises |
| OutcomeExamples.ProfitedFiveHundred | bot.py:61 | "I profited 500" gives 500 when the library raises on "i profited 500" |
| OutcomeExamples.LostTwoHundredIsTwo | bot.py:119 | "Lost 2 hundred" gives 2, not a loss, when the library raises on "lost 2 00" |
| OutcomeExamples.ThreeHundredIsThree | bot.py:77-79 | "3 hundred" gives 3 when the library raises on "3 00" |
| OutcomeExamples.DoubleSignRaises | bot.py:78 | "+-5" makes the parser raise instead of giving `None` |
| OutcomeExamples.NoIdeaIsNoNumber | bot.py:79 | a reply with no digit token ("no idea") gives `None` |
| Sentiment.MaxIndex | bot.py:89 | the chosen entry has the top score, and every earlier entry scores strictly lower, so it is the first of any tie |
| Sentiment.FirstMaxIsUnique | bot.py:89 | the first entry with the top score is the only index `max` can choose |
| Sentiment.MapLabel | bot.py:90 | a known label maps through SENTIMENT_MAP, an unknown one becomes "neutral", and the result is always in the trader vocabulary |
| Sentiment.Analyze | bot.py:85-104 | if the request raises, or the payload is unreadable or empty, the result is "neutral" with the glitch message; a status other than 200 gives "neutral" with the status message; otherwise the first top-scoring label decides the sentiment, and the advice rule gets that sentiment |
| Sentiment.TopLabelDecides | bot.py:88-90 | with a 200 answer, the first top-scoring entry's mapped label is the sentiment |
| Sentiment.Advice | bot.py:93-98 | "stop-loss" in the lower-cased text gives the stop-loss advice; failing that, "overleveraged" gives the leverage advice; failing both, a sentiment in SENTIMENT_ADVICE gets its table entry; the advice is empty exactly when neither keyword appears and the sentiment has no entry |
| Sentiment.StopLossWins | bot.py:93-94 | a text containing "stop-loss", in any ASCII case, gets the stop-loss advice whatever the sentiment |
| Sentiment.AdviceDependsOnSentimentOnlyWithoutKeywords | bot.py:93-98 | two sentiments get different advice only if the text has neither "stop-loss" nor "overleveraged" |
| Sentiment.NoAdviceWithoutTableEntry | bot.py:98 | "surprised", "neutral" and "disgusted" get empty advice when no keyword appears |
| Sentiment.AdviceTableWithinVocabulary | bot.py:23-39 | SENTIMENT_ADVICE has exactly four keys, all of them values of SENTIMENT_MAP |
| Sentiment.TieGoesToFirstLabel | bot.py:89-90 | "fear" and "joy" scored equally, in that order, give "uncertain" |
| Sentiment.UnknownLabelIsNeutral | bot.py:90 | a top label missing from the map ("love") gives "neutral" |
| Sentiment.FearIsUncertain | bot.py:25 | "fear" maps to "uncertain" |
| Sentiment.JoyIsConfident | bot.py:24 | "joy" maps to "confident" |
| Stats.ShowStats | bot.py:175-192 | no row, an empty row, or zero trades gives the no-trades reply, and only these do; a report shows the five figures with a missing key read as 0; the ratio tip appears exactly when the ratio is below 1; otherwise the win-rate tip appears exactly when the win rate is below 50; comparing a null figure raises |
| Stats.NothingLoggedCases | bot.py:175-177 | no row, an empty row and a count of 0 each give the no-trades reply; a null count is not 0, so such a row gets a report with the ratio warning |
| Stats.RatioWarningFirst | bot.py:187-190 | a ratio below 1 gets the ratio warning, even when the win rate is also low |
| Stats.MissingKeyIsZero | bot.py:176-189 | adding a missing key with value 0 changes no reply |
| Stats.MissingRatioWarns | bot.py:187-188 | with logged trades and no ratio figure, the ratio warning is shown |
| Conversation.OnLogTrade | bot.py:48-68 | an argument containing "tradingview.com" stores the link and sets the sender to awaiting_outcome, from any phase, and asks for the outcome; a missing or refused argument changes nothing and sends the invalid-link reply; the table and other users are never touched |
| Conversation.OnText | bot.py:106-166 | an idle sender changes nothing and gets help exactly for "help" or "how to use" (after strip and lower), otherwise the nudge; awaiting an outcome, the three parse results give retry with nothing changed, raise with nothing changed, or storing the outcome and moving to awaiting_sentiment; awaiting a feeling, a successful insert appends exactly one row (sender, stored link, stored outcome, sentiment, stripped text) and makes the sender idle, while a missing key or a raising insert changes nothing; no other user's phase or data changes |
| Conversation.OnOutcome | bot.py:111-129 | the outcome turn alone, as in `OnText` |
| Conversation.OnFeeling | bot.py:131-151 | the commit turn alone, as in `OnText`, including the KeyError and insert-raised paths |
| Conversation.OnlyCommitsWrite | bot.py:132-151 | the table grows only on a logged reply, and then by exactly the sender's pending record |
| Conversation.InitialConsistent | bot.py:20 | the empty start state satisfies the invariant |
| Conversation.LogTradeKeepsConsistent | bot.py:48-68 | `/logtrade` keeps the invariant: users past idle have a link that contains the domain, users awaiting a feeling also have an outcome, and every row's link contains the domain |
| Conversation.TextKeepsConsistent | bot.py:106-166 | a text keeps the same invariant |
| Conversation.TextKeepsPending | bot.py:106-166 | a text keeps the pending-data part of the invariant |
| Conversation.PendingFromSender | bot.py:106-151 | a step that touches only the sender preserves the others' pending data |
| Conversation.AppendKeepsLinks | bot.py:143 | inserting a row with an accepted link keeps all rows' links accepted |
| Conversation.CommitFindsPendingData | bot.py:135-138 | in a consistent state the reads of the pending link and outcome never fail, so a feeling with a successful insert is always logged |
| Conversation.OutcomeStep | bot.py:111-129 | a parsable reply stores the outcome and moves to awaiting_sentiment without touching the table or others |
| Conversation.CommitStep | bot.py:131-151 | with link and outcome stored and the insert returning, exactly one record is appended and the sender becomes idle |
| Conversation.OthersUnchangedTrans | bot.py:48-151 | untouched-other-users composes over consecutive steps |
| Conversation.FullConversation | bot.py:48-151 | an accepted `/logtrade`, a reply parsing to n, and a feeling from any state append exactly one row (sender, link, n, sentiment, stripped text), leave the sender idle, and touch no one else |
| Conversation.FailedInsertCanBeRetried | bot.py:132-151 | a raising insert changes nothing and sends nothing; the next feeling commits the same link and outcome |
| Conversation.UnparsableRepliesLoseNothing | bot.py:111-121 | any number of unparsable replies while awaiting an outcome leave the whole state as it was |
| Conversation.TextIsLocal | bot.py:107-151 | a text's reply and effect depend only on the sender's phase and data and the table |
| Conversation.TextAndLogTradeCommute | bot.py:48-151 | a text from one user and `/logtrade` from another give the same replies, phases, data and table in either order |
| Conversation.ExampleSession | bot.py:48-151 | from the start state, `/logtrade https://tradingview.com/chart/abc`, "+300", then "felt great" ranked "joy" leaves exactly the row (user, link, 300, "confident", "felt great") and the user idle |
| Conversation.ExampleLinkAccepted | bot.py:51 | a https TradingView chart link is accepted by the link test |
| Conversation.BareDomainAccepted | bot.py:51 | the bare domain with no scheme is accepted by the link test |
| Conversation.LookalikeHostAccepted | bot.py:51 | a look-alike host that merely contains the domain is accepted by the link test |
| Conversation.CapitalizedDomainRefused | bot.py:51 | the domain written "TradingView.com" is refused |
| Conversation.TradeBot.constructor | bot.py:20 | the bot starts with no phases, no user data and no rows, which satisfies the invariant |
| Conversation.TradeBot.LogTrade | bot.py:48-68 | updating the fields in place gives `OnLogTrade`'s state and reply, and keeps the invariant |
| Conversation.TradeBot.HandleMessage | bot.py:106-166 | updating the fields in place gives `OnText`'s state and reply, and keeps the invariant; because of the invariant, a feeling whose insert returns is always logged, never a KeyError |
| PyText.Lower | bot.py:71 | `lower` keeps the length and lower-cases each ASCII capital, leaving every other character alone |
| PyText.LowerChar | bot.py:71 | an ASCII capital becomes its lower-case letter and any other character is kept |
| PyText.LowerOfLower | bot.py:71 | text without ASCII capitals is its own lower-case form |
| PyText.Split | bot.py:78 | every piece of `split()` is non-empty and free of whitespace |
| PyText.SplitConcat | bot.py:78 | the pieces of `split()`, joined, are exactly the text's non-whitespace characters in order, so `split()` drops only whitespace |
| PyText.SplitAtSpace | bot.py:78 | any whitespace character separates pieces: `split()` of `a`, a blank, then `b` is the pieces of `a` followed by the pieces of `b` |
| PyText.SplitOfToken | bot.py:78 | a whitespace-free non-empty text splits to itself alone |
| PyText.SplitSkipsSpace | bot.py:78 | leading whitespace does not change `split()` |
| PyText.SplitToken | bot.py:78 | a whitespace-free word followed by whitespace or by nothing is the first piece of `split()` |
| PyText.Word | bot.py:78 | a piece of `split()` is the longest whitespace-free prefix of what remains |
| PyText.NonSpace | bot.py:78 | the text with its whitespace removed holds no whitespace |
| PyText.StripShape | bot.py:108 | `strip()` returns a stretch of the text that neither starts nor ends with whitespace and has only whitespace before and after it |
| PyText.LStrip | bot.py:78 | `lstrip('-+')` removes exactly the leading run of sign characters |
| PyText.DropSpace | bot.py:108 | the leading-whitespace removal of `strip` removes exactly the leading whitespace run |
| PyText.DropTrailingSpace | bot.py:108 | the trailing-whitespace removal of `strip` removes exactly the trailing whitespace run |
| PyText.StripUnpadded | bot.py:108 | `strip` leaves alone a text that neither starts nor ends with whitespace |
| PyText.ReplaceAllKeepsOut | bot.py:71 | `replace` with a replacement lacking a character does not introduce it |
| PyText.ReplaceAllRemoves | bot.py:71 | when the replacement shares no character with the pattern, no occurrence of the pattern is left |
| PyText.ReplaceAllKeepsAbsent | bot.py:71 | `replace` creates no occurrence of a string that holds no character of the replacement |
| PyText.ReplaceAllCopiedPrefix | bot.py:71 | the part of `replace`'s result before any replacement character is copied from the text |
| PyText.ReplaceAllHit | bot.py:71 | a leading occurrence of the pattern becomes the replacement, and replacing continues after it |
| PyText.ReplaceAllSkips | bot.py:71 | a prefix holding no first character of the pattern is copied unchanged |
| PyText.ReplaceAllAbsent | bot.py:71 | a text holding no first character of the pattern is unchanged |
| PyText.ReplaceAllShort | bot.py:71 | a text shorter than the pattern is unchanged |
| PyText.ReplaceAllNoPair | bot.py:71 | a text in which the pattern's first two characters never stand side by side is unchanged |
| PyText.ContainsAt | bot.py:93 | `sub in s` holds when `sub` occurs at some position of `s` |
| PyText.MissingCharNotContained | bot.py:93 | `sub in s` is false when `sub` holds a character `s` lacks |
| PyText.SplitKeepsOut | bot.py:78 | no token of `split()` holds a character the text lacks |

## Left out

- The Telegram transport is not modelled: `reply_text`, `start`, `ApplicationBuilder`, handler registration and `run_polling` (bot.py:41-46, 225-240). A reply is an abstract tag, `Conversation.Reply`, not the text sent.
- A failing `reply_text` is not modelled. For example, if the reply at bot.py:150 raises after the insert, the row is kept and the phase is not reset.
- The Supabase client is not modelled. The insert at bot.py:143 is reduced to the `inserted` flag plus an append to `trades`, and the rows returned by the `rpc` call at bot.py:170-173 are an input to `Stats.ShowStats`. supabase_client.py is not part of this model.
- The HuggingFace HTTP call (bot.py:86) and sentiment.py are not part of this model. The call's outcome is the `Sentiment.Response` input. A JSON payload that is not a list of label/score entries is collapsed to `payload = None`, which takes the glitch fallback, as the raise it causes does.
- The word-to-number library is a foreign call, so it stays an uninterpreted parameter. It can also return floats, but the parameter only gives integers.
- `weekly_report` (bot.py:194-222) is a scheduled I/O loop and is not modelled.
- Environment and dotenv configuration (bot.py:12-17) are not modelled.
- Asynchronous scheduling and concurrency are not modelled. Each handler runs to completion as one step, so an interleaving at an `await` is not represented.
- Floating point is not modelled. Classifier scores, and metric values held as JSON numbers, are `real`, so NaN and rounding are not represented.
- JSON values other than null and numbers are not modelled as metric values.
- PyText.Lower: lower-cases ASCII capitals only. Python's `lower` also maps non-ASCII capitals.
- PyText.IsDigits: accepts ASCII digits only. Python's `isdigit` also accepts other Unicode digits, some of which `int` converts and some of which it rejects.
- PyText.IntOfToken: covers only whitespace-free tokens without underscores, which is all the scan passes to it.
- The reply texts' formatting of the sentiment, such as `upper()` at bot.py:146, is not modelled: `Logged` carries the sentiment and advice as chosen.
