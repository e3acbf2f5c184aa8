/**
 * The per-user trade-logging conversation of `log_trade` and `handle_message`
 * (bot.py:48-68, 106-166).
 *
 * Its state is the module-level dictionary `user_states` (user id to phase),
 * each user's `context.user_data` (the pending TradingView link and outcome),
 * and the rows the bot has inserted into the `trades` table. `OnLogTrade` and
 * `OnText` give the effect of one inbound event on that state as a function;
 * the class `TradeBot` holds the same state in fields and its methods update
 * them in place, as the handlers do.
 */
module Conversation {
  import opened Wrappers
  import opened PyText
  import opened OutcomeParser
  import opened Sentiment

  type UserId = int

  /** A value of `user_states`: "awaiting_outcome", "awaiting_sentiment", or `None` (also a missing key). */
  datatype Phase = Idle | AwaitingOutcome | AwaitingSentiment

  /** One user's `context.user_data`: its "tradingview_link" and "outcome" entries, when set. */
  datatype UserData = UserData(link: Option<string>, outcome: Option<int>)

  /** The row inserted into `trades` (bot.py:135-141). */
  datatype TradeRecord = TradeRecord(
    userId: UserId, tradingviewLink: string, outcome: int, sentiment: string, notes: string)

  /** Which reply the handler sends. */
  datatype Reply =
    | AskOutcome                                  // bot.py:58-63
    | InvalidLink                                 // bot.py:65-68
    | RetryOutcome                                // bot.py:115-120
    | AskFeeling                                  // bot.py:126-129
    | Logged(sentiment: string, advice: string)   // bot.py:146-150
    | Help                                        // bot.py:156-161
    | Nudge                                       // bot.py:163-166
    | NoReply                                     // the handler raised before replying

  /** The whole state the conversation handlers read and write. */
  datatype Bot = Bot(states: map<UserId, Phase>, userData: map<UserId, UserData>, trades: seq<TradeRecord>)

  /** The state after one event, and the reply sent. */
  datatype Step = Step(bot: Bot, reply: Reply)

  /** The only thing `log_trade` checks of its argument (bot.py:51). */
  const LinkDomain := "tradingview.com"

  /** The texts that get the help reply (bot.py:155). */
  const HelpTexts: seq<string> := ["help", "how to use"]

  const NoData := UserData(None, None)

  /** `user_states.get(user)`. */
  function PhaseOf(b: Bot, user: UserId): Phase {
    if user in b.states then b.states[user] else Idle
  }

  /** `context.user_data` of `user`. */
  function DataOf(b: Bot, user: UserId): UserData {
    if user in b.userData then b.userData[user] else NoData
  }

  /** No user other than `user` sees a different phase or user data in `b'`. */
  ghost predicate OthersUnchanged(b: Bot, b': Bot, user: UserId) {
    forall v :: v != user ==> PhaseOf(b', v) == PhaseOf(b, v) && DataOf(b', v) == DataOf(b, v)
  }

  /** `context.args[0]` exists and contains "tradingview.com" (bot.py:50-52). */
  predicate LinkAccepted(args: seq<string>) {
    |args| > 0 && Contains(args[0], LinkDomain)
  }

  /** `/logtrade` with the words after the command (bot.py:48-68). */
  function OnLogTrade(b: Bot, user: UserId, args: seq<string>): (r: Step)
    ensures r.bot.trades == b.trades
    ensures OthersUnchanged(b, r.bot, user)
    ensures LinkAccepted(args) ==>
      r.reply == AskOutcome && PhaseOf(r.bot, user) == AwaitingOutcome &&
      DataOf(r.bot, user) == DataOf(b, user).(link := Some(args[0]))
    ensures !LinkAccepted(args) ==> r == Step(b, InvalidLink)
  {
    if LinkAccepted(args) then
      var data := DataOf(b, user).(link := Some(args[0]));
      Step(b.(states := b.states[user := AwaitingOutcome], userData := b.userData[user := data]), AskOutcome)
    else
      Step(b, InvalidLink)
  }

  /** The record a commit inserts: the pending link and outcome, the sentiment and the text. */
  function Record(user: UserId, data: UserData, sentiment: string, notes: string): TradeRecord
    requires data.link.Some? && data.outcome.Some?
  {
    TradeRecord(user, data.link.value, data.outcome.value, sentiment, notes)
  }

  /**
   * A text message (bot.py:106-166). `wordToNum` is the word-to-number
   * library, `response` what the classifier call gave, and `inserted` whether
   * the insert into `trades` returned rather than raised.
   */
  function OnText(b: Bot, user: UserId, message: string, wordToNum: string -> Option<int>,
                  response: Response, inserted: bool): (r: Step)
    ensures OthersUnchanged(b, r.bot, user)
    // idle: nothing changes; only the reply is chosen
    ensures PhaseOf(b, user) == Idle ==>
      r.bot == b && (r.reply == Help <==> Lower(Strip(message)) in HelpTexts) &&
      (r.reply != Help ==> r.reply == Nudge)
    // awaiting an outcome
    ensures PhaseOf(b, user) == AwaitingOutcome ==>
      match ParseOutcome(Strip(message), wordToNum)
      case NoNumber => r == Step(b, RetryOutcome)
      case IntRaised => r == Step(b, NoReply)
      case Number(n) =>
        r.reply == AskFeeling && r.bot.trades == b.trades &&
        PhaseOf(r.bot, user) == AwaitingSentiment &&
        DataOf(r.bot, user) == DataOf(b, user).(outcome := Some(n))
    // awaiting the feeling: commit, or (when the insert raised) change nothing
    ensures PhaseOf(b, user) == AwaitingSentiment ==>
      var analysis := Analyze(Strip(message), response);
      if inserted && DataOf(b, user).link.Some? && DataOf(b, user).outcome.Some? then
        r.reply == Logged(analysis.sentiment, analysis.advice) &&
        r.bot.trades == b.trades + [Record(user, DataOf(b, user), analysis.sentiment, Strip(message))] &&
        PhaseOf(r.bot, user) == Idle && DataOf(r.bot, user) == DataOf(b, user)
      else
        r == Step(b, NoReply)
  {
    var text := Strip(message);
    match PhaseOf(b, user)
    case AwaitingOutcome => OnOutcome(b, user, text, wordToNum)
    case AwaitingSentiment => OnFeeling(b, user, text, response, inserted)
    case Idle => Step(b, if Lower(text) in HelpTexts then Help else Nudge)
  }

  /** bot.py:111-129: the stripped reply to the outcome question. */
  function OnOutcome(b: Bot, user: UserId, text: string, wordToNum: string -> Option<int>): (r: Step)
    ensures OthersUnchanged(b, r.bot, user)
    ensures
      match ParseOutcome(text, wordToNum)
      case NoNumber => r == Step(b, RetryOutcome)
      case IntRaised => r == Step(b, NoReply)
      case Number(n) =>
        r.reply == AskFeeling && r.bot.trades == b.trades &&
        PhaseOf(r.bot, user) == AwaitingSentiment &&
        DataOf(r.bot, user) == DataOf(b, user).(outcome := Some(n))
  {
    match ParseOutcome(text, wordToNum)
    case IntRaised => Step(b, NoReply)
    case NoNumber => Step(b, RetryOutcome)
    case Number(n) =>
      var data := DataOf(b, user).(outcome := Some(n));
      Step(b.(userData := b.userData[user := data], states := b.states[user := AwaitingSentiment]), AskFeeling)
  }

  /** bot.py:131-151: the stripped reply to the feeling question. */
  function OnFeeling(b: Bot, user: UserId, text: string, response: Response, inserted: bool): (r: Step)
    ensures OthersUnchanged(b, r.bot, user)
    ensures
      var analysis := Analyze(text, response);
      if inserted && DataOf(b, user).link.Some? && DataOf(b, user).outcome.Some? then
        r.reply == Logged(analysis.sentiment, analysis.advice) &&
        r.bot.trades == b.trades + [Record(user, DataOf(b, user), analysis.sentiment, text)] &&
        PhaseOf(r.bot, user) == Idle && DataOf(r.bot, user) == DataOf(b, user)
      else
        r == Step(b, NoReply)
  {
    var analysis := Analyze(text, response);
    var data := DataOf(b, user);
    if data.link.None? || data.outcome.None? then
      Step(b, NoReply)  // KeyError reading user_data (bot.py:137-138)
    else if !inserted then
      Step(b, NoReply)  // the insert raised (bot.py:143); the reset at bot.py:151 is not reached
    else
      Step(b.(trades := b.trades + [Record(user, data, analysis.sentiment, text)], states := b.states[user := Idle]),
           Logged(analysis.sentiment, analysis.advice))
  }

  /**
   * Only a commit writes to `trades`, and it writes exactly one row: the
   * sender's pending link and outcome, the sentiment it replied with, and the
   * stripped text.
   */
  lemma OnlyCommitsWrite(b: Bot, user: UserId, message: string, wordToNum: string -> Option<int>,
                         response: Response, inserted: bool)
    ensures
      var r := OnText(b, user, message, wordToNum, response, inserted);
      && (!r.reply.Logged? ==> r.bot.trades == b.trades)
      && (r.reply.Logged? ==>
            PhaseOf(b, user) == AwaitingSentiment && inserted &&
            DataOf(b, user).link.Some? && DataOf(b, user).outcome.Some? &&
            r.bot.trades == b.trades + [Record(user, DataOf(b, user), r.reply.sentiment, Strip(message))])
  {
  }

  // ----- What every reachable state satisfies -----

  /**
   * A user waiting for an outcome or a feeling has a stored link that contains
   * "tradingview.com", a user waiting for a feeling also has a stored outcome, and
   * every inserted row carries an accepted link.
   */
  ghost predicate Consistent(b: Bot) {
    PendingConsistent(b) && LinksAccepted(b.trades)
  }

  ghost predicate PendingConsistent(b: Bot) {
    && (forall u :: PhaseOf(b, u) != Idle ==>
          DataOf(b, u).link.Some? && Contains(DataOf(b, u).link.value, LinkDomain))
    && (forall u :: PhaseOf(b, u) == AwaitingSentiment ==> DataOf(b, u).outcome.Some?)
  }

  ghost predicate LinksAccepted(trades: seq<TradeRecord>) {
    forall i :: 0 <= i < |trades| ==> Contains(trades[i].tradingviewLink, LinkDomain)
  }

  lemma AppendKeepsLinks(trades: seq<TradeRecord>, record: TradeRecord)
    requires LinksAccepted(trades) && Contains(record.tradingviewLink, LinkDomain)
    ensures LinksAccepted(trades + [record])
  {
    forall i | 0 <= i < |trades + [record]|
      ensures Contains((trades + [record])[i].tradingviewLink, LinkDomain)
    {
      if i == |trades| {
        assert (trades + [record])[i] == record;
      } else {
        assert (trades + [record])[i] == trades[i];
      }
    }
  }

  /** The state before any event. */
  const Initial := Bot(map[], map[], [])

  lemma InitialConsistent()
    ensures Consistent(Initial)
  {
  }

  /** `/logtrade` keeps the state consistent. */
  lemma LogTradeKeepsConsistent(b: Bot, user: UserId, args: seq<string>)
    requires Consistent(b)
    ensures Consistent(OnLogTrade(b, user, args).bot)
  {
  }

  /** A text message keeps the state consistent. */
  lemma TextKeepsConsistent(b: Bot, user: UserId, message: string, wordToNum: string -> Option<int>,
                            response: Response, inserted: bool)
    requires Consistent(b)
    ensures Consistent(OnText(b, user, message, wordToNum, response, inserted).bot)
  {
    var r := OnText(b, user, message, wordToNum, response, inserted);
    TextKeepsPending(b, user, message, wordToNum, response, inserted);
    OnlyCommitsWrite(b, user, message, wordToNum, response, inserted);
    if r.reply.Logged? {
      AppendKeepsLinks(b.trades, Record(user, DataOf(b, user), r.reply.sentiment, Strip(message)));
    }
  }

  lemma TextKeepsPending(b: Bot, user: UserId, message: string, wordToNum: string -> Option<int>,
                         response: Response, inserted: bool)
    requires PendingConsistent(b)
    ensures PendingConsistent(OnText(b, user, message, wordToNum, response, inserted).bot)
  {
    var r := OnText(b, user, message, wordToNum, response, inserted);
    assert SenderPending(r.bot, user);
    PendingFromSender(b, r.bot, user);
  }

  /** The sender's own part of `PendingConsistent`. */
  ghost predicate SenderPending(b: Bot, user: UserId) {
    && (PhaseOf(b, user) != Idle ==>
          DataOf(b, user).link.Some? && Contains(DataOf(b, user).link.value, LinkDomain))
    && (PhaseOf(b, user) == AwaitingSentiment ==> DataOf(b, user).outcome.Some?)
  }

  /** A step that touches only the sender keeps `PendingConsistent` when the sender's part holds. */
  lemma PendingFromSender(b: Bot, b': Bot, user: UserId)
    requires PendingConsistent(b) && OthersUnchanged(b, b', user) && SenderPending(b', user)
    ensures PendingConsistent(b')
  {
    forall u
      ensures PhaseOf(b', u) != Idle ==> DataOf(b', u).link.Some? && Contains(DataOf(b', u).link.value, LinkDomain)
      ensures PhaseOf(b', u) == AwaitingSentiment ==> DataOf(b', u).outcome.Some?
    {
      if u != user {
        assert PhaseOf(b', u) == PhaseOf(b, u) && DataOf(b', u) == DataOf(b, u);
      }
    }
  }

  /**
   * In a consistent state the dictionary reads of bot.py:137-138 always find
   * their keys: a feeling sent while awaiting one is logged unless the insert raises.
   */
  lemma CommitFindsPendingData(b: Bot, user: UserId, message: string, wordToNum: string -> Option<int>,
                               response: Response)
    requires Consistent(b) && PhaseOf(b, user) == AwaitingSentiment
    ensures OnText(b, user, message, wordToNum, response, true).reply.Logged?
  {
  }

  // ----- Whole conversations -----

  /** A reply that parses to `n`, sent while awaiting an outcome. */
  lemma OutcomeStep(b: Bot, user: UserId, message: string, n: int, wordToNum: string -> Option<int>,
                    response: Response)
    requires PhaseOf(b, user) == AwaitingOutcome
    requires ParseOutcome(Strip(message), wordToNum) == Number(n)
    ensures
      var r := OnText(b, user, message, wordToNum, response, true);
      && r.reply == AskFeeling && r.bot.trades == b.trades
      && PhaseOf(r.bot, user) == AwaitingSentiment
      && DataOf(r.bot, user) == DataOf(b, user).(outcome := Some(n))
      && OthersUnchanged(b, r.bot, user)
  {
  }

  /** A text sent while awaiting a feeling, with link and outcome stored and the insert returning. */
  lemma CommitStep(b: Bot, user: UserId, message: string, wordToNum: string -> Option<int>,
                   response: Response)
    requires PhaseOf(b, user) == AwaitingSentiment
    requires DataOf(b, user).link.Some? && DataOf(b, user).outcome.Some?
    ensures
      var r := OnText(b, user, message, wordToNum, response, true);
      var analysis := Analyze(Strip(message), response);
      && r.reply == Logged(analysis.sentiment, analysis.advice)
      && r.bot.trades == b.trades + [Record(user, DataOf(b, user), analysis.sentiment, Strip(message))]
      && PhaseOf(r.bot, user) == Idle
      && OthersUnchanged(b, r.bot, user)
  {
  }

  lemma OthersUnchangedTrans(b1: Bot, b2: Bot, b3: Bot, user: UserId)
    requires OthersUnchanged(b1, b2, user) && OthersUnchanged(b2, b3, user)
    ensures OthersUnchanged(b1, b3, user)
  {
  }

  /**
   * From any state, `/logtrade <link>` with an accepted link, then a reply that
   * parses to `n`, then any text whose insert succeeds, appends exactly one row
   * (the sender, that link, `n`, the detected sentiment, the stripped text),
   * leaves the sender idle and no other user touched.
   */
  lemma FullConversation(b: Bot, user: UserId, args: seq<string>,
                         outcomeText: string, feeling: string, n: int,
                         wordToNum: string -> Option<int>, r2: Response, r3: Response)
    requires LinkAccepted(args)
    requires ParseOutcome(Strip(outcomeText), wordToNum) == Number(n)
    ensures
      var s1 := OnLogTrade(b, user, args);
      var s2 := OnText(s1.bot, user, outcomeText, wordToNum, r2, true);
      var s3 := OnText(s2.bot, user, feeling, wordToNum, r3, true);
      var analysis := Analyze(Strip(feeling), r3);
      && s1.reply == AskOutcome && s2.reply == AskFeeling
      && s3.reply == Logged(analysis.sentiment, analysis.advice)
      && s3.bot.trades == b.trades + [TradeRecord(user, args[0], n, analysis.sentiment, Strip(feeling))]
      && PhaseOf(s3.bot, user) == Idle
      && OthersUnchanged(b, s3.bot, user)
  {
    var s1 := OnLogTrade(b, user, args);
    OutcomeStep(s1.bot, user, outcomeText, n, wordToNum, r2);
    var s2 := OnText(s1.bot, user, outcomeText, wordToNum, r2, true);
    CommitStep(s2.bot, user, feeling, wordToNum, r3);
    var s3 := OnText(s2.bot, user, feeling, wordToNum, r3, true);
    OthersUnchangedTrans(b, s1.bot, s2.bot, user);
    OthersUnchangedTrans(b, s2.bot, s3.bot, user);
  }

  /**
   * When the insert raises, the conversation is not lost: the phase stays
   * "awaiting_sentiment" with link and outcome kept, so the next text commits them.
   */
  lemma FailedInsertCanBeRetried(b: Bot, user: UserId, first: string, second: string,
                                 wordToNum: string -> Option<int>, r1: Response, r2: Response)
    requires Consistent(b) && PhaseOf(b, user) == AwaitingSentiment
    ensures
      var failed := OnText(b, user, first, wordToNum, r1, false);
      var retried := OnText(failed.bot, user, second, wordToNum, r2, true);
      var analysis := Analyze(Strip(second), r2);
      && failed == Step(b, NoReply)
      && retried.reply == Logged(analysis.sentiment, analysis.advice)
      && retried.bot.trades == b.trades + [Record(user, DataOf(b, user), analysis.sentiment, Strip(second))]
  {
  }

  /** Any number of unparsable replies in a row lose nothing. */
  lemma {:induction false} UnparsableRepliesLoseNothing(b: Bot, user: UserId, replies: seq<string>,
                                                        wordToNum: string -> Option<int>, response: Response)
    requires PhaseOf(b, user) == AwaitingOutcome
    requires forall k :: 0 <= k < |replies| ==> ParseOutcome(Strip(replies[k]), wordToNum) == NoNumber
    ensures Replay(b, user, replies, wordToNum, response) == b
    decreases |replies|
  {
    if replies != [] {
      assert OnText(b, user, replies[0], wordToNum, response, true).bot == b;
      UnparsableRepliesLoseNothing(b, user, replies[1..], wordToNum, response);
    }
  }

  /** The state after `user` sends `messages`, one after the other, every insert succeeding. */
  function Replay(b: Bot, user: UserId, messages: seq<string>,
                  wordToNum: string -> Option<int>, response: Response): Bot
    decreases |messages|
  {
    if messages == [] then b
    else Replay(OnText(b, user, messages[0], wordToNum, response, true).bot, user, messages[1..],
                wordToNum, response)
  }

  /** A text's effect depends only on the sender's own phase and data and on the table. */
  lemma TextIsLocal(b: Bot, b': Bot, u: UserId, message: string, wordToNum: string -> Option<int>,
                    response: Response, inserted: bool)
    requires PhaseOf(b, u) == PhaseOf(b', u) && DataOf(b, u) == DataOf(b', u) && b.trades == b'.trades
    ensures
      var r := OnText(b, u, message, wordToNum, response, inserted);
      var r' := OnText(b', u, message, wordToNum, response, inserted);
      && r.reply == r'.reply && r.bot.trades == r'.bot.trades
      && PhaseOf(r.bot, u) == PhaseOf(r'.bot, u) && DataOf(r.bot, u) == DataOf(r'.bot, u)
  {
  }

  /**
   * Two users' events do not interfere: a text from one user and `/logtrade`
   * from another give the same phases, user data and replies in either order.
   */
  lemma TextAndLogTradeCommute(b: Bot, u: UserId, v: UserId, message: string, args: seq<string>,
                               wordToNum: string -> Option<int>, response: Response, inserted: bool)
    requires u != v
    ensures
      var t1 := OnText(b, u, message, wordToNum, response, inserted);
      var l1 := OnLogTrade(t1.bot, v, args);
      var l2 := OnLogTrade(b, v, args);
      var t2 := OnText(l2.bot, u, message, wordToNum, response, inserted);
      && t1.reply == t2.reply && l1.reply == l2.reply
      && l1.bot.trades == t2.bot.trades
      && (forall w :: PhaseOf(l1.bot, w) == PhaseOf(t2.bot, w) && DataOf(l1.bot, w) == DataOf(t2.bot, w))
  {
    var t1 := OnText(b, u, message, wordToNum, response, inserted);
    var l2 := OnLogTrade(b, v, args);
    TextIsLocal(b, l2.bot, u, message, wordToNum, response, inserted);
  }

  // ----- One session end to end -----

  const ExampleLink := "https://tradingview.com/chart/abc"

  lemma ExampleLinkAccepted()
    ensures LinkAccepted([ExampleLink])
  {
    ContainsAt(ExampleLink, LinkDomain, 8);
  }

  lemma StripOutcomeExample()
    ensures Strip("+300") == "+300"
  {
    StripUnpadded("+300");
  }

  lemma StripFeelingExample()
    ensures Strip("felt great") == "felt great"
  {
    StripUnpadded("felt great");
  }

  lemma ParseOutcomeExample(wordToNum: string -> Option<int>)
    requires wordToNum("+300") == None
    ensures ParseOutcome("+300", wordToNum) == Number(300)
  {
    assert DigitsValue("300") == 300 by {
      assert "300"[..2] == "30" && "30"[..1] == "3";
    }
    assert "+" + "300" == "+300";
    SignedLiteral("+", "300", wordToNum);
  }

  lemma FeelingRanking()
    ensures Analyze("felt great", Answered(200, Some([LabelScore("joy", 0.9), LabelScore("fear", 0.05)])))
              .sentiment == MapLabel("joy")
  {
    TopLabelDecides("felt great", [LabelScore("joy", 0.9), LabelScore("fear", 0.05)], 0);
  }

  lemma FeelingExample()
    ensures Analyze("felt great", Answered(200, Some([LabelScore("joy", 0.9), LabelScore("fear", 0.05)])))
              .sentiment == "confident"
  {
    FeelingRanking();
    JoyIsConfident();
  }

  /**
   * "/logtrade https://tradingview.com/chart/abc", then "+300", then "felt
   * great" with the classifier ranking "joy" on top, from a fresh start: the
   * table then holds exactly the row (user, link, 300, "confident", "felt great").
   */
  lemma ExampleSession(user: UserId, wordToNum: string -> Option<int>, r1: Response, r2: Response)
    requires wordToNum("+300") == None
    ensures
      var s1 := OnLogTrade(Initial, user, [ExampleLink]);
      var s2 := OnText(s1.bot, user, "+300", wordToNum, r1, true);
      var feeling := Answered(200, Some([LabelScore("joy", 0.9), LabelScore("fear", 0.05)]));
      var s3 := OnText(s2.bot, user, "felt great", wordToNum, feeling, true);
      && s3.bot.trades == [TradeRecord(user, ExampleLink, 300, "confident", "felt great")]
      && PhaseOf(s3.bot, user) == Idle
  {
    ExampleLinkAccepted();
    StripOutcomeExample();
    StripFeelingExample();
    ParseOutcomeExample(wordToNum);
    var feeling := Answered(200, Some([LabelScore("joy", 0.9), LabelScore("fear", 0.05)]));
    FeelingExample();
    FullConversation(Initial, user, [ExampleLink], "+300", "felt great", 300, wordToNum, r1, feeling);
  }

  /** The link check is only a substring test: no scheme is needed... */
  lemma BareDomainAccepted()
    ensures LinkAccepted(["tradingview.com"])
  {
    ContainsAt("tradingview.com", LinkDomain, 0);
  }

  /** ...any host that merely contains the domain passes... */
  lemma LookalikeHostAccepted()
    ensures LinkAccepted(["http://nottradingview.com.example"])
  {
    ContainsAt("http://nottradingview.com.example", LinkDomain, 10);
  }

  /** ...and the domain written with capitals is refused. */
  lemma CapitalizedDomainRefused()
    ensures !LinkAccepted(["https://TradingView.com/chart"])
  {
    MissingCharNotContained("https://TradingView.com/chart", LinkDomain, 'v');
  }

  // ----- The handlers as code that updates the bot's state in place -----

  /**
   * The bot's mutable state: the `user_states` dictionary, the per-user
   * `context.user_data` dictionaries, and the rows inserted into `trades`.
   */
  class TradeBot {
    var userStates: map<UserId, Phase>
    var userData: map<UserId, UserData>
    var trades: seq<TradeRecord>

    function State(): Bot
      reads this
    {
      Bot(userStates, userData, trades)
    }

    ghost predicate Valid()
      reads this
    {
      Consistent(State())
    }

    /** `user_states = {}` at start-up, with no user data and nothing inserted. */
    constructor ()
      ensures State() == Initial
      ensures Valid()
    {
      userStates := map[];
      userData := map[];
      trades := [];
    }

    /** `log_trade` (bot.py:48-68). */
    method LogTrade(user: UserId, args: seq<string>) returns (reply: Reply)
      requires Valid()
      modifies this
      ensures Valid()
      ensures Step(State(), reply) == OnLogTrade(old(State()), user, args)
    {
      if |args| == 0 || !Contains(args[0], LinkDomain) {
        reply := InvalidLink;
        return;
      }
      var link := args[0];
      var data := if user in userData then userData[user] else NoData;
      userData := userData[user := data.(link := Some(link))];
      userStates := userStates[user := AwaitingOutcome];
      reply := AskOutcome;
      LogTradeKeepsConsistent(old(State()), user, args);
    }

    /** `handle_message` (bot.py:106-166). */
    method HandleMessage(user: UserId, message: string, wordToNum: string -> Option<int>,
                         response: Response, inserted: bool) returns (reply: Reply)
      requires Valid()
      modifies this
      ensures Valid()
      ensures Step(State(), reply) == OnText(old(State()), user, message, wordToNum, response, inserted)
      // in a valid state the reads of the pending link and outcome cannot fail
      ensures PhaseOf(old(State()), user) == AwaitingSentiment && inserted ==> reply.Logged?
    {
      TextKeepsConsistent(State(), user, message, wordToNum, response, inserted);
      if PhaseOf(State(), user) == AwaitingSentiment {
        CommitFindsPendingData(State(), user, message, wordToNum, response);
      }
      var text := Strip(message);
      var phase := if user in userStates then userStates[user] else Idle;
      if phase == AwaitingOutcome {
        var outcome := ParseOutcome(text, wordToNum);
        if outcome == IntRaised {
          reply := NoReply;
          return;
        }
        if outcome == NoNumber {
          reply := RetryOutcome;
          return;
        }
        var data := if user in userData then userData[user] else NoData;
        userData := userData[user := data.(outcome := Some(outcome.value))];
        userStates := userStates[user := AwaitingSentiment];
        reply := AskFeeling;
      } else if phase == AwaitingSentiment {
        var analysis := Analyze(text, response);
        var data := if user in userData then userData[user] else NoData;
        if data.link.None? || data.outcome.None? {
          reply := NoReply;
          return;
        }
        var record := TradeRecord(user, data.link.value, data.outcome.value, analysis.sentiment, text);
        if !inserted {
          reply := NoReply;
          return;
        }
        trades := trades + [record];
        reply := Logged(analysis.sentiment, analysis.advice);
        userStates := userStates[user := Idle];
      } else {
        reply := if Lower(text) in HelpTexts then Help else Nudge;
      }
    }
  }
}
