/**
 * The trivia game module: channel members request a game with the "trivia"
 * alias; once enough distinct users have asked, a game starts. A timer then
 * asks questions, gives hints and answer reveals, and lets questions expire;
 * correct guesses score a point; after the last question the winners are
 * announced.
 *
 * The question provider, the timers and Irc.Say are outside the model: the
 * provider's questions, hints and answer checks are parameters, a timer is the
 * delay it was set to and a call of the method it would run, and every Say is
 * recorded in the order it is made.
 */
module TriviaGame {
  import opened Wrappers
  import opened Chars
  import opened Strings
  import opened IrcPeers
  import opened TriviaReveal

  /** The alias that requests a game. */
  const AliasName: string := "trivia"

  datatype GameState = Asking | Asked

  /**
   * The provider's current question. Whether it has hints left is not part of
   * it: the provider answers that anew on every tick, so it is a parameter of
   * each TriviaLoop call.
   */
  datatype Question = Question(text: string, primaryAnswer: string)

  /** What the module says in a channel, one value per message. */
  datatype Announcement =
    | TriviaStartStr                                  // "You've been served, ..."
    | RequestNotice(requester: Option<string>, oneMore: bool)
    | RequestExpired
    | GameStarting(delay: int)
    | QuestionNumber(number: int)
    | QuestionText(text: string)
    | Hint(hint: string)
    | AnswerReveal(revealed: string)
    | QuestionExpired(answer: string)
    | Correct(guesser: string, answer: string)
    | NextQuestion(delay: int)
    | NoWinner
    | Tie(winners: seq<string>, topScore: int)
    | TieTaunt
    | Winner(winner: string, topScore: int)
    | GameOver

  datatype Said = Said(channel: string, what: Announcement)

  /**
   * One channel's game. players lists the scoring players in the order they
   * first scored, the order the score dictionary enumerates them in; timer is
   * the delay, in seconds, of the pending TriviaLoop call.
   */
  datatype Game = Game(
    players: seq<string>,
    scores: map<string, int>,
    questionNum: int,
    currentHint: int,
    state: GameState,
    question: Option<Question>,
    timer: Option<int>)

  /** What every running game satisfies. */
  ghost predicate GameValid(g: Game, questionsPerGame: int) {
    (forall i, j :: 0 <= i < j < |g.players| ==> g.players[i] != g.players[j])
    && (forall i :: 0 <= i < |g.players| ==> g.players[i] in g.scores)
    && (forall p :: p in g.scores ==> p in g.players && g.scores[p] >= 1)
    && 0 <= g.questionNum < questionsPerGame
    && g.currentHint >= 0
    && g.timer.Some?
    && (g.state == Asked ==> g.question.Some?)
  }

  /** The checks of OnInit: a provider type, and positive threshold, expiry and game length. */
  function ConfigFault(providerType: Option<string>, requestThreshold: int, requestExpire: int,
                       questionsPerGame: int): (r: Option<Exception>)
    ensures r == None <==>
      providerType.Some? && requestThreshold >= 1 && requestExpire >= 1 && questionsPerGame >= 1
    ensures r != None ==> r == Some(InvalidOperation)
  {
    if providerType == None || requestThreshold < 1 || requestExpire < 1 || questionsPerGame < 1
    then Some(InvalidOperation)
    else None
  }

  // ---------------------------------------------------------------------------
  // Winners
  // ---------------------------------------------------------------------------

  /** The top score the game-over loop ends with: the highest score, and 0 when none is higher. */
  function TopScore(players: seq<string>, scores: map<string, int>): int
    requires forall i :: 0 <= i < |players| ==> players[i] in scores
  {
    if players == [] then 0
    else
      var t := TopScore(players[..|players| - 1], scores);
      var last := players[|players| - 1];
      if scores[last] > t then scores[last] else t
  }

  /** The players with the given score, in order. */
  function Leaders(players: seq<string>, scores: map<string, int>, top: int): seq<string>
    requires forall i :: 0 <= i < |players| ==> players[i] in scores
  {
    if players == [] then []
    else
      var last := players[|players| - 1];
      Leaders(players[..|players| - 1], scores, top) + (if scores[last] == top then [last] else [])
  }

  /** The top score is at least 0 and every score, and above 0 it is some player's score. */
  lemma {:induction false} TopScoreBounds(players: seq<string>, scores: map<string, int>)
    requires forall i :: 0 <= i < |players| ==> players[i] in scores
    ensures TopScore(players, scores) >= 0
    ensures forall i :: 0 <= i < |players| ==> scores[players[i]] <= TopScore(players, scores)
    ensures TopScore(players, scores) > 0 ==>
      exists i :: 0 <= i < |players| && scores[players[i]] == TopScore(players, scores)
    decreases |players|
  {
    if players != [] {
      var init := players[..|players| - 1];
      TopScoreBounds(init, scores);
      forall i | 0 <= i < |init|
        ensures players[i] == init[i]
      {
      }
    }
  }

  /** The leaders for a score are exactly the players with that score. */
  lemma {:induction false} LeadersMembers(players: seq<string>, scores: map<string, int>, top: int)
    requires forall i :: 0 <= i < |players| ==> players[i] in scores
    ensures forall p :: p in Leaders(players, scores, top) <==> p in players && scores[p] == top
    decreases |players|
  {
    if players != [] {
      var init := players[..|players| - 1];
      var last := players[|players| - 1];
      LeadersMembers(init, scores, top);
      assert players == init + [last];
      assert forall p :: p in players <==> p in init || p == last;
    }
  }

  lemma {:induction false} NoLeadersAbove(players: seq<string>, scores: map<string, int>, top: int)
    requires forall i :: 0 <= i < |players| ==> players[i] in scores && scores[players[i]] < top
    ensures Leaders(players, scores, top) == []
    decreases |players|
  {
    if players != [] {
      NoLeadersAbove(players[..|players| - 1], scores, top);
    }
  }

  /** The game-over loop: the top score and the players holding it, in enumeration order. */
  method SelectWinners(players: seq<string>, scores: map<string, int>) returns (winners: seq<string>, topScore: int)
    requires forall i :: 0 <= i < |players| ==> players[i] in scores
    ensures topScore == TopScore(players, scores)
    ensures winners == Leaders(players, scores, topScore)
  {
    topScore := 0;
    winners := [];
    var i := 0;
    while i < |players|
      invariant 0 <= i <= |players|
      invariant topScore == TopScore(players[..i], scores)
      invariant winners == Leaders(players[..i], scores, topScore)
    {
      var k := players[i];
      var seen := players[..i];
      assert players[..i + 1][..i] == seen && players[..i + 1][i] == k;
      if scores[k] > topScore {
        TopScoreBounds(seen, scores);
        NoLeadersAbove(seen, scores, scores[k]);
        winners := [k];
        topScore := scores[k];
      } else if scores[k] == topScore {
        winners := winners + [k];
      }
      i := i + 1;
    }
    assert players[..i] == players;
  }

  /**
   * With every score at least 1, the winners are exactly the players no one
   * outscored, and there is a winner whenever anyone scored.
   */
  lemma WinnersOutscoreEveryone(players: seq<string>, scores: map<string, int>)
    requires forall i :: 0 <= i < |players| ==> players[i] in scores && scores[players[i]] >= 1
    ensures forall p :: p in Leaders(players, scores, TopScore(players, scores)) <==>
      p in players && forall i :: 0 <= i < |players| ==> scores[players[i]] <= scores[p]
    ensures players != [] ==> Leaders(players, scores, TopScore(players, scores)) != []
  {
    var top := TopScore(players, scores);
    TopScoreBounds(players, scores);
    LeadersMembers(players, scores, top);
    if players != [] {
      assert scores[players[0]] <= top;
      var w :| 0 <= w < |players| && scores[players[w]] == top;
      assert players[w] in players;
      assert players[w] in Leaders(players, scores, top);
      forall p | p in players && forall i :: 0 <= i < |players| ==> scores[players[i]] <= scores[p]
        ensures p in Leaders(players, scores, top)
      {
        var j :| 0 <= j < |players| && players[j] == p;
        assert scores[players[w]] <= scores[p];
      }
    }
  }

  /** What game over says: no winner, a tie or a winner, then the closing line. */
  function Finale(chan: string, g: Game): seq<Said>
    requires forall i :: 0 <= i < |g.players| ==> g.players[i] in g.scores
  {
    var top := TopScore(g.players, g.scores);
    var winners := Leaders(g.players, g.scores, top);
    (if |g.scores| < 1 then [Said(chan, NoWinner)] else [])
    + (if |winners| > 1 then [Said(chan, Tie(winners, top)), Said(chan, TieTaunt)]
       else if |winners| == 1 then [Said(chan, Winner(winners[0], top))]
       else [])
    + [Said(chan, GameOver)]
  }

  // ---------------------------------------------------------------------------
  // Game steps
  // ---------------------------------------------------------------------------

  /** The answer reveal a hint gives, when allowed: GetAnswerReveal with the hint count. */
  method HintReveal(answer: string, hint: int, canReveal: bool)
    returns (revealed: Option<string>, ghost shown: seq<int>, ghost round: nat, ghost cut: nat)
    ensures revealed.Some? <==> canReveal
    ensures revealed.Some? ==> HidesLetters(revealed.value, Trim(answer))
    ensures revealed.Some? ==> IsReveal(answer, hint, revealed.value, shown, round, cut)
  {
    revealed, shown, round, cut := None, [], 0, 0;
    if canReveal {
      var text;
      text, shown, round, cut := GetAnswerReveal(answer, hint);
      revealed := Some(text);
    }
  }

  /** A game as TriviaStart creates it, its first question due after delay seconds. */
  function NewGame(delay: int): Game {
    Game([], map[], 0, 0, Asking, None, Some(delay))
  }

  /** TriviaNextQuestion when more questions remain: the next number, asked after delay seconds. */
  function Advance(g: Game, delay: int): (r: Game)
    ensures r.questionNum == g.questionNum + 1 && r.state == Asking && r.currentHint == 0
    ensures r.players == g.players && r.scores == g.scores && r.timer == Some(delay)
  {
    g.(questionNum := g.questionNum + 1, state := Asking, currentHint := 0, timer := Some(delay))
  }

  /** The games after TriviaNextQuestion: the game advanced while questions remain, otherwise removed. */
  function NextGames(games: map<string, Game>, chan: string, g: Game, questionsPerGame: int, delay: int): map<string, Game> {
    if g.questionNum + 1 < questionsPerGame then games[chan := Advance(g, delay)] else games - {chan}
  }

  /** The lines TriviaNextQuestion says: the next question's announcement, or the game's finale. */
  function NextLines(chan: string, g: Game, questionsPerGame: int, delay: int): seq<Said>
    requires forall i :: 0 <= i < |g.players| ==> g.players[i] in g.scores
  {
    if g.questionNum + 1 < questionsPerGame then [Said(chan, NextQuestion(delay))] else Finale(chan, g)
  }

  /**
   * TriviaNextQuestion keeps the game exactly while questions remain, then
   * with the next question pending and no hints given; every other
   * channel's game is left as it was.
   */
  lemma NextGamesShape(games: map<string, Game>, chan: string, g: Game, questionsPerGame: int, delay: int)
    ensures chan in NextGames(games, chan, g, questionsPerGame, delay) <==> g.questionNum + 1 < questionsPerGame
    ensures chan in NextGames(games, chan, g, questionsPerGame, delay) ==>
      var n := NextGames(games, chan, g, questionsPerGame, delay)[chan];
      n.state == Asking && n.currentHint == 0 && n.questionNum == g.questionNum + 1 && n.scores == g.scores
    ensures forall c :: c != chan ==>
      (c in NextGames(games, chan, g, questionsPerGame, delay) <==> c in games)
      && (c in games ==> NextGames(games, chan, g, questionsPerGame, delay)[c] == games[c])
  {
  }

  /** What TriviaNextQuestion does to a channel's games does not depend on the game stored there before. */
  lemma NextGamesReplaced(games: map<string, Game>, chan: string, g: Game, h: Game, questionsPerGame: int, delay: int)
    ensures NextGames(games[chan := h], chan, g, questionsPerGame, delay) == NextGames(games, chan, g, questionsPerGame, delay)
  {
    if g.questionNum + 1 < questionsPerGame {
      assert games[chan := h][chan := Advance(g, delay)] == games[chan := Advance(g, delay)];
    } else {
      assert games[chan := h] - {chan} == games - {chan};
    }
  }

  /** A correct guess: one more point for the guesser, who joins the players on a first point. */
  function Scored(g: Game, nick: string): (r: Game)
    ensures r.scores.Keys == g.scores.Keys + {nick}
    ensures r.scores[nick] == (if nick in g.scores then g.scores[nick] else 0) + 1
    ensures forall p :: p in g.scores && p != nick ==> r.scores[p] == g.scores[p]
    ensures r.players == if nick in g.scores then g.players else g.players + [nick]
    ensures r.questionNum == g.questionNum && r.currentHint == g.currentHint && r.state == g.state
  {
    if nick in g.scores then g.(scores := g.scores[nick := g.scores[nick] + 1])
    else g.(players := g.players + [nick], scores := g.scores[nick := 1])
  }

  /** Scoring keeps a game valid. */
  lemma ScoredValid(g: Game, nick: string, questionsPerGame: int)
    requires GameValid(g, questionsPerGame)
    ensures GameValid(Scored(g, nick), questionsPerGame)
  {
    var r := Scored(g, nick);
    if nick !in g.scores {
      forall i, j | 0 <= i < j < |r.players|
        ensures r.players[i] != r.players[j]
      {
        if j == |g.players| {
          assert r.players[i] in g.players;
        }
      }
    }
  }

  /**
   * The pending requests: a channel has an expiry timer exactly while it has
   * pending requests, and they stay below the threshold.
   */
  ghost predicate RequestsValid(requests: map<string, set<Option<string>>>, reqTimers: set<string>, threshold: int) {
    (forall c :: c in reqTimers <==> c in requests && requests[c] != {})
    && (forall c :: c in requests ==> |requests[c]| < threshold)
  }

  /** Setting a channel's pending requests, with its timer set exactly when some are pending, keeps them valid. */
  lemma RequestsSet(requests: map<string, set<Option<string>>>, reqTimers: set<string>, threshold: int,
                    chan: string, pending: set<Option<string>>)
    requires RequestsValid(requests, reqTimers, threshold) && |pending| < threshold
    ensures RequestsValid(requests[chan := pending], if pending == {} then reqTimers - {chan} else reqTimers + {chan}, threshold)
  {
  }

  /** Every running game is valid. */
  ghost predicate GamesValid(games: map<string, Game>, questionsPerGame: int) {
    forall c :: c in games ==> GameValid(games[c], questionsPerGame)
  }

  /** Setting or removing one valid game keeps the games valid. */
  lemma GamesSet(games: map<string, Game>, questionsPerGame: int, chan: string, g: Game)
    requires GamesValid(games, questionsPerGame)
    ensures GamesValid(games - {chan}, questionsPerGame)
    ensures GameValid(g, questionsPerGame) ==> GamesValid(games[chan := g], questionsPerGame)
  {
  }

  /** The hint line, when the question has hints. */
  function HintSaid(chan: string, hasHints: bool, hint: string): seq<Said> {
    if hasHints then [Said(chan, Hint(hint))] else []
  }

  /** The answer reveal line, when there is one. */
  function RevealSaid(chan: string, revealed: Option<string>): seq<Said> {
    if revealed.Some? then [Said(chan, AnswerReveal(revealed.value))] else []
  }

  // ---------------------------------------------------------------------------
  // The module
  // ---------------------------------------------------------------------------

  class Trivia {
    const requestThreshold: int
    const requestExpire: int
    const beforeQuestionDelay: int
    const afterQuestionDelay: int
    const afterHintDelay: int
    const maxNumberOfHints: int
    const showAnswerReveal: bool
    const questionsPerGame: int

    /** The users who asked for a game, per channel. */
    var requests: map<string, set<Option<string>>>
    /** The channels with a pending request-expiry timer. */
    var reqTimers: set<string>
    /** The running games, per channel. */
    var games: map<string, Game>
    /** Everything said, in order. */
    var said: seq<Said>

    /**
     * The module's invariant: a channel has an expiry timer exactly while it
     * has pending requests, pending requests stay below the threshold, and
     * every running game is valid.
     */
    ghost predicate Valid()
      reads this
    {
      requestThreshold >= 1 && requestExpire >= 1 && questionsPerGame >= 1
      && RequestsValid(requests, reqTimers, requestThreshold)
      && GamesValid(games, questionsPerGame)
    }

    /** OnInit, once its checks have passed: nothing requested, no game running. */
    constructor(providerType: Option<string>, requestThreshold: int, requestExpire: int,
                beforeQuestionDelay: int, afterQuestionDelay: int, afterHintDelay: int,
                maxNumberOfHints: int, showAnswerReveal: bool, questionsPerGame: int)
      requires ConfigFault(providerType, requestThreshold, requestExpire, questionsPerGame) == None
      ensures Valid()
      ensures this.requestThreshold == requestThreshold && this.requestExpire == requestExpire
      ensures this.beforeQuestionDelay == beforeQuestionDelay && this.afterQuestionDelay == afterQuestionDelay
      ensures this.afterHintDelay == afterHintDelay && this.maxNumberOfHints == maxNumberOfHints
      ensures this.showAnswerReveal == showAnswerReveal && this.questionsPerGame == questionsPerGame
      ensures requests == map[] && reqTimers == {} && games == map[] && said == []
    {
      this.requestThreshold := requestThreshold;
      this.requestExpire := requestExpire;
      this.beforeQuestionDelay := beforeQuestionDelay;
      this.afterQuestionDelay := afterQuestionDelay;
      this.afterHintDelay := afterHintDelay;
      this.maxNumberOfHints := maxNumberOfHints;
      this.showAnswerReveal := showAnswerReveal;
      this.questionsPerGame := questionsPerGame;
      requests := map[];
      reqTimers := {};
      games := map[];
      said := [];
    }

    /** The users who have asked for a game in chan. */
    function Pending(chan: string): set<Option<string>>
      reads this
    {
      if chan in requests then requests[chan] else {}
    }

    /** Whether a request counts: an unhandled "trivia" alias in a channel with no game, from a new user. */
    predicate Admitted(handled: bool, name: string, target: Target, from: Prefix)
      reads this
    {
      !handled && name == AliasName && target.IsChannel() && target.channel !in games
      && from.nickUserHost !in Pending(target.channel)
    }

    /**
     * TriviaRequest. A request that does not count changes nothing. One that
     * counts either stays pending, announced and with an expiry timer, or,
     * when it reaches the threshold, clears the requests and starts a game.
     * The start looks up the channel's expiry timer unchecked, so with a
     * threshold of 1, where no timer was ever set, it throws KeyNotFound
     * after the announcement and no game starts.
     */
    method TriviaRequest(handled: bool, name: string, target: Target, from: Prefix) returns (r: Outcome)
      requires Valid()
      modifies this
      ensures Valid()
      ensures !old(Admitted(handled, name, target, from)) ==>
        r == Pass && requests == old(requests) && reqTimers == old(reqTimers)
        && games == old(games) && said == old(said)
      ensures old(Admitted(handled, name, target, from)) ==>
        var chan := target.channel;
        var count := |old(Pending(chan))| + 1;
        (count < requestThreshold ==>
          r == Pass && requests == old(requests)[chan := old(Pending(chan)) + {from.nickUserHost}]
          && reqTimers == old(reqTimers) + {chan} && games == old(games)
          && said == old(said) + [Said(chan, RequestNotice(from.nickname, requestThreshold - count == 1))])
        && (count >= requestThreshold && requestThreshold == 1 ==>
          r == Fail(KeyNotFound) && requests == old(requests)[chan := {}]
          && reqTimers == old(reqTimers) && games == old(games)
          && said == old(said) + [Said(chan, TriviaStartStr)])
        && (count >= requestThreshold && requestThreshold > 1 ==>
          r == Pass && requests == old(requests)[chan := {}]
          && reqTimers == old(reqTimers) - {chan} && games == old(games)[chan := NewGame(beforeQuestionDelay)]
          && said == old(said) + [Said(chan, TriviaStartStr), Said(chan, GameStarting(beforeQuestionDelay))])
    {
      if handled || name != AliasName || !target.IsChannel() {
        return Pass;
      }
      var chan := target.channel;
      var user := from.nickUserHost;
      if chan in games {
        return Pass;
      }
      var pending := Pending(chan);
      if user !in pending {
        pending := pending + {user};
      } else {
        return Pass;
      }
      if |pending| >= requestThreshold {
        r := Launch(chan);
      } else {
        Wait(chan, pending, from.nickname);
        r := Pass;
      }
    }

    /**
     * The threshold is reached: the start is announced and the requests are
     * cleared; then the expiry timer is looked up unchecked, and when there is
     * one it is removed and the game starts.
     */
    method Launch(chan: string) returns (r: Outcome)
      requires Valid() && chan !in games
      modifies this
      ensures Valid()
      ensures requests == old(requests)[chan := {}]
      ensures chan !in old(reqTimers) ==>
        r == Fail(KeyNotFound) && reqTimers == old(reqTimers) && games == old(games)
        && said == old(said) + [Said(chan, TriviaStartStr)]
      ensures chan in old(reqTimers) ==>
        r == Pass && reqTimers == old(reqTimers) - {chan} && games == old(games)[chan := NewGame(beforeQuestionDelay)]
        && said == old(said) + [Said(chan, TriviaStartStr), Said(chan, GameStarting(beforeQuestionDelay))]
    {
      RequestsSet(requests, reqTimers, requestThreshold, chan, {});
      said := said + [Said(chan, TriviaStartStr)];
      requests := requests[chan := {}];
      if chan !in reqTimers {
        assert reqTimers - {chan} == reqTimers;
        return Fail(KeyNotFound);
      }
      reqTimers := reqTimers - {chan};
      GamesSet(games, questionsPerGame, chan, NewGame(beforeQuestionDelay));
      TriviaStart(chan);
      r := Pass;
    }

    /** The threshold is not reached: the request is announced and an expiry timer set if there is none. */
    method Wait(chan: string, pending: set<Option<string>>, nickname: Option<string>)
      requires Valid() && pending != {} && |pending| < requestThreshold
      modifies this
      ensures Valid()
      ensures requests == old(requests)[chan := pending] && reqTimers == old(reqTimers) + {chan}
      ensures games == old(games)
      ensures said == old(said) + [Said(chan, RequestNotice(nickname, requestThreshold - |pending| == 1))]
    {
      RequestsSet(requests, reqTimers, requestThreshold, chan, pending);
      said := said + [Said(chan, RequestNotice(nickname, requestThreshold - |pending| == 1))];
      requests := requests[chan := pending];
      if chan !in reqTimers {
        reqTimers := reqTimers + {chan};
      }
    }

    /** TriviaStart: a new game whose first question comes after BeforeQuestionDelay seconds. */
    method TriviaStart(chan: string)
      requires chan in requests && chan !in games
      modifies this
      ensures requests == old(requests)[chan := {}] && reqTimers == old(reqTimers)
      ensures games == old(games)[chan := NewGame(beforeQuestionDelay)]
      ensures said == old(said) + [Said(chan, GameStarting(beforeQuestionDelay))]
    {
      requests := requests[chan := {}];
      games := games[chan := NewGame(beforeQuestionDelay)];
      said := said + [Said(chan, GameStarting(beforeQuestionDelay))];
    }

    /** The request-expiry timer: the pending requests are dropped, with a taunt. */
    method RequestExpire(chan: string)
      requires Valid() && chan in reqTimers
      modifies this
      ensures Valid()
      ensures requests == old(requests)[chan := {}] && reqTimers == old(reqTimers) - {chan}
      ensures games == old(games) && said == old(said) + [Said(chan, RequestExpired)]
    {
      said := said + [Said(chan, RequestExpired)];
      requests := requests[chan := {}];
      reqTimers := reqTimers - {chan};
    }

    /**
     * TriviaGameOver: the winners are announced in the order the score
     * dictionary enumerates them, and the game ends.
     */
    method TriviaGameOver(chan: string, g: Game)
      requires Valid() && chan in games && games[chan] == g
      modifies this
      ensures Valid()
      ensures requests == old(requests) && reqTimers == old(reqTimers)
      ensures games == old(games) - {chan}
      ensures said == old(said) + Finale(chan, g)
    {
      var winners, topScore := SelectWinners(g.players, g.scores);
      var lines: seq<Said> := [];
      if |g.scores| < 1 {
        lines := [Said(chan, NoWinner)];
      }
      if |winners| > 1 {
        lines := lines + [Said(chan, Tie(winners, topScore)), Said(chan, TieTaunt)];
      } else if |winners| == 1 {
        lines := lines + [Said(chan, Winner(winners[0], topScore))];
      }
      lines := lines + [Said(chan, GameOver)];
      said := said + lines;
      games := games - {chan};
    }

    /**
     * TriviaNextQuestion: the question number moves on, and either the next
     * question is announced or, after the last one, the game is over.
     */
    method TriviaNextQuestion(chan: string, g: Game)
      requires Valid() && chan in games && games[chan] == g
      modifies this
      ensures Valid()
      ensures requests == old(requests) && reqTimers == old(reqTimers)
      ensures games == NextGames(old(games), chan, g, questionsPerGame, beforeQuestionDelay)
      ensures said == old(said) + NextLines(chan, g, questionsPerGame, beforeQuestionDelay)
    {
      if g.questionNum + 1 < questionsPerGame {
        games := games[chan := Advance(g, beforeQuestionDelay)];
        said := said + [Said(chan, NextQuestion(beforeQuestionDelay))];
      } else {
        TriviaGameOver(chan, g);
      }
    }

    /** TriviaLoop while asking: the provider's next question is asked. */
    method Ask(chan: string, next: Question)
      requires Valid() && chan in games && games[chan].state == Asking
      modifies this
      ensures Valid()
      ensures requests == old(requests) && reqTimers == old(reqTimers)
      ensures games == old(games)[chan := old(games[chan]).(state := Asked, question := Some(next),
                                                          timer := Some(afterQuestionDelay))]
      ensures said == old(said) + [Said(chan, QuestionNumber(old(games[chan].questionNum) + 1)),
                                   Said(chan, QuestionText(next.text))]
    {
      var g := games[chan];
      said := said + [Said(chan, QuestionNumber(g.questionNum + 1)), Said(chan, QuestionText(next.text))];
      games := games[chan := g.(state := Asked, question := Some(next), timer := Some(afterQuestionDelay))];
    }

    /** Whether CanReveal allows a reveal for the game's question at its current hint count. */
    predicate RevealAllowed(g: Game)
      requires g.question.Some?
    {
      showAnswerReveal && g.currentHint < CountAlnum(g.question.value.primaryAnswer) / 2
    }

    /**
     * Whether the tick of an asked question gives a hint: the raised hint
     * count is within the limit, and there is a hint or a reveal to give.
     */
    predicate GivesHint(g: Game, hasHints: bool)
      requires g.question.Some?
    {
      g.currentHint + 1 <= maxNumberOfHints && (hasHints || RevealAllowed(g))
    }

    /**
     * A tick that gives a hint: the hint count goes up by one, and the
     * provider's next hint and, when allowed, the answer reveal computed
     * with the raised count are said.
     */
    method GiveHint(chan: string, g: Game, hasHints: bool, hint: string, revealed: Option<string>)
      requires Valid() && chan in games && games[chan] == g && g.state == Asked && GivesHint(g, hasHints)
      modifies this
      ensures Valid()
      ensures requests == old(requests) && reqTimers == old(reqTimers)
      ensures games == old(games)[chan := g.(currentHint := g.currentHint + 1, timer := Some(afterHintDelay))]
      ensures said == old(said) + HintSaid(chan, hasHints, hint) + RevealSaid(chan, revealed)
    {
      var h := g.(currentHint := g.currentHint + 1, timer := Some(afterHintDelay));
      var lines := HintSaid(chan, hasHints, hint);
      GamesSet(games, questionsPerGame, chan, h);
      said := said + lines + RevealSaid(chan, revealed);
      games := games[chan := h];
    }

    /** One line said in the channel, and the channel's game replaced by a valid one. */
    method Announce(chan: string, line: Said, h: Game)
      requires Valid() && chan in games && GameValid(h, questionsPerGame)
      modifies this
      ensures Valid()
      ensures requests == old(requests) && reqTimers == old(reqTimers)
      ensures games == old(games)[chan := h] && said == old(said) + [line]
    {
      GamesSet(games, questionsPerGame, chan, h);
      said := said + [line];
      games := games[chan := h];
    }

    /** A tick that gives no hint: the question expires, with its answer, and the game moves on. */
    method Expire(chan: string, g: Game)
      requires Valid() && chan in games && games[chan] == g && g.state == Asked
      modifies this
      ensures Valid()
      ensures requests == old(requests) && reqTimers == old(reqTimers)
      ensures games == NextGames(old(games), chan, g.(currentHint := g.currentHint + 1), questionsPerGame, beforeQuestionDelay)
      ensures said == old(said) + [Said(chan, QuestionExpired(g.question.value.primaryAnswer))]
                     + NextLines(chan, g.(currentHint := g.currentHint + 1), questionsPerGame, beforeQuestionDelay)
    {
      var h := g.(currentHint := g.currentHint + 1);
      ghost var before := games;
      Announce(chan, Said(chan, QuestionExpired(g.question.value.primaryAnswer)), h);
      TriviaNextQuestion(chan, h);
      NextGamesReplaced(before, chan, h, h, questionsPerGame, beforeQuestionDelay);
    }

    /**
     * TriviaLoop: the game's timer fired. next is the question the provider
     * moves on to, hasHints what the provider answers now about hints left,
     * and hint the hint it gives next. A hint or a reveal is
     * given only while the raised hint count is within MaxNumberOfHints, a
     * reveal only while CanReveal allows it, and otherwise the question
     * expires.
     */
    method TriviaLoop(chan: string, next: Question, hasHints: bool, hint: string)
      returns (revealed: Option<string>, ghost shown: seq<int>, ghost round: nat, ghost cut: nat)
      requires Valid() && chan in games
      modifies this
      ensures Valid()
      ensures requests == old(requests) && reqTimers == old(reqTimers)
      ensures old(games[chan].state) == Asking ==>
        revealed == None
        && games == old(games)[chan := old(games[chan]).(state := Asked, question := Some(next),
                                                        timer := Some(afterQuestionDelay))]
        && said == old(said) + [Said(chan, QuestionNumber(old(games[chan].questionNum) + 1)),
                                Said(chan, QuestionText(next.text))]
      ensures old(games[chan].state) == Asked && GivesHint(old(games[chan]), hasHints) ==>
        var g := old(games[chan]);
        games == old(games)[chan := g.(currentHint := g.currentHint + 1, timer := Some(afterHintDelay))]
        && g.currentHint + 1 <= maxNumberOfHints
        && (revealed.Some? <==> RevealAllowed(g))
        && (revealed.Some? ==> HidesLetters(revealed.value, Trim(g.question.value.primaryAnswer)))
        && (revealed.Some? ==> IsReveal(g.question.value.primaryAnswer, g.currentHint + 1, revealed.value, shown, round, cut))
        && said == old(said) + HintSaid(chan, hasHints, hint) + RevealSaid(chan, revealed)
      ensures old(games[chan].state) == Asked && !GivesHint(old(games[chan]), hasHints) ==>
        var h := old(games[chan]).(currentHint := old(games[chan].currentHint) + 1);
        revealed == None
        && games == NextGames(old(games), chan, h, questionsPerGame, beforeQuestionDelay)
        && said == old(said) + [Said(chan, QuestionExpired(h.question.value.primaryAnswer))]
                   + NextLines(chan, h, questionsPerGame, beforeQuestionDelay)
    {
      var g := games[chan];
      shown, round, cut := [], 0, 0;
      if g.state == Asking {
        Ask(chan, next);
        revealed := None;
      } else {
        revealed, shown, round, cut := Tick(chan, g, hasHints, hint);
      }
    }

    /** TriviaLoop for an asked question: a hint and a reveal when GivesHint allows, otherwise the question expires. */
    method Tick(chan: string, g: Game, hasHints: bool, hint: string)
      returns (revealed: Option<string>, ghost shown: seq<int>, ghost round: nat, ghost cut: nat)
      requires Valid() && chan in games && games[chan] == g && g.state == Asked
      modifies this
      ensures Valid()
      ensures requests == old(requests) && reqTimers == old(reqTimers)
      ensures GivesHint(g, hasHints) ==>
        games == old(games)[chan := g.(currentHint := g.currentHint + 1, timer := Some(afterHintDelay))]
        && (revealed.Some? <==> RevealAllowed(g))
        && (revealed.Some? ==> HidesLetters(revealed.value, Trim(g.question.value.primaryAnswer)))
        && (revealed.Some? ==> IsReveal(g.question.value.primaryAnswer, g.currentHint + 1, revealed.value, shown, round, cut))
        && said == old(said) + HintSaid(chan, hasHints, hint) + RevealSaid(chan, revealed)
      ensures !GivesHint(g, hasHints) ==>
        revealed == None
        && games == NextGames(old(games), chan, g.(currentHint := g.currentHint + 1), questionsPerGame, beforeQuestionDelay)
        && said == old(said) + [Said(chan, QuestionExpired(g.question.value.primaryAnswer))]
                   + NextLines(chan, g.(currentHint := g.currentHint + 1), questionsPerGame, beforeQuestionDelay)
    {
      var q := g.question.value;
      var canReveal := CanReveal(showAnswerReveal, q.primaryAnswer, g.currentHint);
      if g.currentHint + 1 <= maxNumberOfHints && (hasHints || canReveal) {
        revealed, shown, round, cut := HintTick(chan, g, hasHints, hint);
      } else {
        Expire(chan, g);
        revealed, shown, round, cut := None, [], 0, 0;
      }
    }

    /** A tick that gives a hint: the reveal, when CanReveal allows it, is GetAnswerReveal with the raised hint count. */
    method HintTick(chan: string, g: Game, hasHints: bool, hint: string)
      returns (revealed: Option<string>, ghost shown: seq<int>, ghost round: nat, ghost cut: nat)
      requires Valid() && chan in games && games[chan] == g && g.state == Asked && GivesHint(g, hasHints)
      modifies this
      ensures Valid()
      ensures requests == old(requests) && reqTimers == old(reqTimers)
      ensures games == old(games)[chan := g.(currentHint := g.currentHint + 1, timer := Some(afterHintDelay))]
      ensures revealed.Some? <==> RevealAllowed(g)
      ensures revealed.Some? ==> HidesLetters(revealed.value, Trim(g.question.value.primaryAnswer))
      ensures revealed.Some? ==> IsReveal(g.question.value.primaryAnswer, g.currentHint + 1, revealed.value, shown, round, cut)
      ensures said == old(said) + HintSaid(chan, hasHints, hint) + RevealSaid(chan, revealed)
    {
      var q := g.question.value;
      var canReveal := CanReveal(showAnswerReveal, q.primaryAnswer, g.currentHint);
      revealed, shown, round, cut := HintReveal(q.primaryAnswer, g.currentHint + 1, canReveal);
      GiveHint(chan, g, hasHints, hint, revealed);
    }

    /** Whether a message is a correct guess: from a user, in a channel whose game's question is asked, and accepted by the provider's check of its trimmed, lower-cased text. */
    predicate IsCorrectGuess(isSelf: bool, from: Prefix, target: Target, text: string, check: string -> bool)
      reads this
    {
      !isSelf && !from.IsServer() && target.IsChannel() && target.channel in games
      && games[target.channel].state == Asked && check(Lower(Trim(text)))
    }

    /** A correct guess by nick: announced, one point for nick, and on to the next question. */
    method Score(chan: string, g: Game, nick: string)
      requires Valid() && chan in games && games[chan] == g && g.state == Asked
      modifies this
      ensures Valid()
      ensures requests == old(requests) && reqTimers == old(reqTimers)
      ensures games == NextGames(old(games), chan, Scored(g, nick), questionsPerGame, beforeQuestionDelay)
      ensures said == old(said) + [Said(chan, Correct(nick, g.question.value.primaryAnswer))]
                     + NextLines(chan, Scored(g, nick), questionsPerGame, beforeQuestionDelay)
    {
      var s := Scored(g, nick);
      ScoredValid(g, nick, questionsPerGame);
      ghost var before := games;
      Announce(chan, Said(chan, Correct(nick, g.question.value.primaryAnswer)), s);
      TriviaNextQuestion(chan, s);
      NextGamesReplaced(before, chan, s, s, questionsPerGame, beforeQuestionDelay);
    }

    /**
     * TriviaGuess: anything but a correct guess changes nothing; a correct
     * guess scores one point for the guesser and nobody else and moves the
     * game on to the next question, or ends it after the last one.
     */
    method TriviaGuess(isSelf: bool, from: Prefix, target: Target, text: string, check: string -> bool)
      requires Valid()
      modifies this
      ensures Valid()
      ensures requests == old(requests) && reqTimers == old(reqTimers)
      ensures !old(IsCorrectGuess(isSelf, from, target, text, check)) ==>
        games == old(games) && said == old(said)
      ensures old(IsCorrectGuess(isSelf, from, target, text, check)) ==>
        var chan := target.channel;
        var g := old(games[chan]);
        var s := Scored(g, from.nickname.value);
        games == NextGames(old(games), chan, s, questionsPerGame, beforeQuestionDelay)
        && said == old(said) + [Said(chan, Correct(from.nickname.value, g.question.value.primaryAnswer))]
                   + NextLines(chan, s, questionsPerGame, beforeQuestionDelay)
    {
      if isSelf || from.IsServer() || !target.IsChannel() || target.channel !in games {
        return;
      }
      var chan := target.channel;
      if games[chan].state != Asked {
        return;
      }
      if check(Lower(Trim(text))) {
        Score(chan, games[chan], from.nickname.value);
      }
    }
  }
}
