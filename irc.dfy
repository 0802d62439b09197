/**
 * The IRC client module: the nickname it goes by, the messages it queues on the
 * connection, splitting of long text over several PRIVMSG lines, the MODE
 * request, and the handling of incoming PING, NICK and MODE messages.
 */
module IrcClient {
  import opened Wrappers
  import opened Strings
  import opened IrcPeers
  import opened IrcMessages

  /** IrcTextFormat */
  datatype TextFormat = Raw | Split

  // ---------------------------------------------------------------------------
  // Splitting long text
  // ---------------------------------------------------------------------------

  /**
   * The length of the first line of an over-long text: up to and including the
   * last split character among the first max characters, or max characters when
   * there is none.
   */
  function FirstLineLength(text: string, max: int, splitChars: string): (k: nat)
    requires 0 < max < |text|
    ensures 1 <= k <= max
    ensures k < max ==> text[k - 1] in splitChars && forall j :: k <= j < max ==> text[j] !in splitChars
    ensures k == max ==> text[max - 1] in splitChars || forall j :: 0 <= j < max ==> text[j] !in splitChars
  {
    var i := LastIndexOfAny(text, splitChars, max - 1);
    if i < 0 then max else i + 1
  }

  /** Whether Say splits the text: Split format, a positive limit, and a text over it. */
  predicate SplitsText(text: string, max: int, format: TextFormat) {
    format == Split && max > 0 && |text| > max
  }

  /** The texts Say sends, one PRIVMSG each. */
  function Lines(text: string, max: int, splitChars: string, format: TextFormat): (r: seq<string>)
    ensures |r| >= 1
    ensures !SplitsText(text, max, format) ==> r == [text]
    decreases |text|
  {
    if SplitsText(text, max, format) then
      var k := FirstLineLength(text, max, splitChars);
      [text[..k]] + Lines(text[k..], max, splitChars, Split)
    else [text]
  }

  /** The lines put together give back the text. */
  lemma {:induction false} LinesConcat(text: string, max: int, splitChars: string, format: TextFormat)
    ensures Concat(Lines(text, max, splitChars, format)) == text
    decreases |text|
  {
    if SplitsText(text, max, format) {
      var k := FirstLineLength(text, max, splitChars);
      var rest := Lines(text[k..], max, splitChars, Split);
      LinesConcat(text[k..], max, splitChars, Split);
      assert ([text[..k]] + rest)[1..] == rest;
      assert text[..k] + text[k..] == text;
    }
  }

  /**
   * In Split format with a positive limit, no line is longer than the limit,
   * and no line is empty unless the whole text was.
   */
  lemma {:induction false} LinesBounded(text: string, max: int, splitChars: string)
    requires max > 0
    ensures forall i :: 0 <= i < |Lines(text, max, splitChars, Split)| ==>
      |Lines(text, max, splitChars, Split)[i]| <= max
      && (|text| > 0 ==> |Lines(text, max, splitChars, Split)[i]| > 0)
    decreases |text|
  {
    var lines := Lines(text, max, splitChars, Split);
    if SplitsText(text, max, Split) {
      var k := FirstLineLength(text, max, splitChars);
      var rest := Lines(text[k..], max, splitChars, Split);
      LinesBounded(text[k..], max, splitChars);
      assert lines == [text[..k]] + rest;
      forall i | 0 <= i < |lines|
        ensures |lines[i]| <= max && (|text| > 0 ==> |lines[i]| > 0)
      {
        if i > 0 {
          assert lines[i] == rest[i - 1];
        }
      }
    }
  }

  /** The scan of Say for the last split character among the first max characters. */
  method SplitPosition(text: string, max: int, splitChars: string) returns (i: int)
    requires 0 < max < |text|
    ensures i + 1 == FirstLineLength(text, max, splitChars)
  {
    i := max - 1;
    while i >= 0 && IndexOf(splitChars, text[i]) < 0
      invariant -1 <= i < max
      invariant LastIndexOfAny(text, splitChars, max - 1) == LastIndexOfAny(text, splitChars, i)
      decreases i + 1
    {
      i := i - 1;
    }
    if i < 0 {
      i := max - 1;
    }
  }

  /** The PRIVMSG carrying one line to a recipient. */
  function Privmsg(to: string, line: string): (m: Message)
    requires ' ' !in to
    ensures m.prefix.None? && m.parameters == [Some(to), Some(line)]
  {
    Construct(None, "PRIVMSG", [Some(to), Some(line)]).value
  }

  function Privmsgs(to: string, lines: seq<string>): (ms: seq<Message>)
    requires ' ' !in to
    ensures |ms| == |lines|
    ensures forall i :: 0 <= i < |lines| ==> ms[i] == Privmsg(to, lines[i])
  {
    if lines == [] then [] else [Privmsg(to, lines[0])] + Privmsgs(to, lines[1..])
  }

  /** A PRIVMSG cannot be built for a recipient with a space: the constructor throws. */
  lemma PrivmsgFails(to: string, line: string)
    ensures Construct(None, "PRIVMSG", [Some(to), Some(line)]).Success? <==> ' ' !in to
  {
    var ps := [Some(to), Some(line)];
    if ' ' in to {
      assert !(ps[0].Some? && ' ' !in ps[0].value);
    } else {
      forall i | 0 <= i < |ps| - 1
        ensures ps[i].Some? && ' ' !in ps[i].value
      {
        assert i == 0;
      }
    }
  }

  /** One split step of Say: the first line's message, then the rest's, are the text's messages. */
  lemma SayStep(to: string, queue: seq<Message>, text: string, max: int, splitChars: string, k: nat)
    requires ' ' !in to && SplitsText(text, max, Split) && k == FirstLineLength(text, max, splitChars)
    ensures queue + Privmsgs(to, Lines(text[..k], max, splitChars, Raw)) + Privmsgs(to, Lines(text[k..], max, splitChars, Split))
      == queue + Privmsgs(to, Lines(text, max, splitChars, Split))
  {
    var rest := Lines(text[k..], max, splitChars, Split);
    assert Lines(text, max, splitChars, Split) == [text[..k]] + rest;
    assert Privmsgs(to, [text[..k]] + rest) == [Privmsg(to, text[..k])] + Privmsgs(to, rest);
  }

  // ---------------------------------------------------------------------------
  // MODE
  // ---------------------------------------------------------------------------

  /** The parameters of a MODE request: the target, the modes, then the mode arguments. */
  function ModeParameters(target: Target, modes: string, arguments: seq<Option<string>>): (ps: seq<Option<string>>)
    ensures |ps| == |arguments| + 2
    ensures ps[0] == TargetToString(target) && ps[1] == Some(modes) && ps[2..] == arguments
  {
    [TargetToString(target), Some(modes)] + arguments
  }

  /** The array Mode fills: the target, the modes, then the mode arguments. */
  method ModeParameterArray(target: Target, modes: string, arguments: seq<Option<string>>) returns (parameters: array<Option<string>>)
    ensures fresh(parameters) && parameters[..] == ModeParameters(target, modes, arguments)
  {
    parameters := new Option<string>[|arguments| + 2];
    parameters[0] := TargetToString(target);
    parameters[1] := Some(modes);
    var i := 0;
    while i < |arguments|
      invariant 0 <= i <= |arguments|
      invariant parameters[0] == TargetToString(target) && parameters[1] == Some(modes)
      invariant forall j :: 0 <= j < i ==> parameters[j + 2] == arguments[j]
    {
      parameters[i + 2] := arguments[i];
      i := i + 1;
    }
    ghost var ps := ModeParameters(target, modes, arguments);
    assert forall j :: 0 <= j < parameters.Length ==> parameters[j] == ps[j];
  }

  /** The prefix the MODE request carries: the channel name, or the user's nickname. */
  function ModePrefix(target: Target): Option<string> {
    if target.IsChannel() then Some(target.channel) else target.nickname
  }

  // ---------------------------------------------------------------------------
  // Incoming MODE
  // ---------------------------------------------------------------------------

  /** What a MODE message tells the ModeChanged handlers. */
  datatype ModeChange = ModeChange(
    isSelf: bool, targetIsSelf: bool, target: Target, modes: Option<string>, arguments: seq<Option<string>>)

  /** The nickname of a target; a channel has none. */
  function TargetNickname(t: Target): Option<string> {
    if t.IsChannel() then None else t.nickname
  }

  /** Whether a message comes from the client itself. */
  predicate FromSelf(m: Message, nickname: Option<string>) {
    m.from.Some? && m.from.value.nickname == nickname
  }

  /**
   * The MODE branch of ProcessMessage: the target is parsed from the first
   * parameter (a missing one throws, a null one throws on StartsWith), an array
   * of Count - 2 arguments is allocated (negative with one parameter), then the
   * modes are the second parameter and the arguments the rest.
   */
  function ModeOf(m: Message, nickname: Option<string>): (r: Result<ModeChange>)
    ensures r.Success? <==> |m.parameters| >= 2 && m.parameters[0].Some? && ParseTarget(m.parameters[0].value).Success?
    ensures r.Success? ==>
      (r.value.target == ParseTarget(m.parameters[0].value).value
       && r.value.modes == m.parameters[1] && r.value.arguments == m.parameters[2..]
       && r.value.isSelf == FromSelf(m, nickname)
       && r.value.targetIsSelf == (TargetNickname(r.value.target) == nickname))
  {
    var ps := m.parameters;
    if |ps| == 0 then Failure(ArgumentOutOfRange)
    else if ps[0].None? then Failure(NullReference)
    else match ParseTarget(ps[0].value)
      case Failure(e) => Failure(e)
      case Success(target) =>
        if |ps| < 2 then Failure(Overflow)
        else Success(ModeChange(FromSelf(m, nickname), TargetNickname(target) == nickname, target, ps[1], ps[2..]))
  }

  /** The copying loop of the MODE branch: the parameters from index 2 on. */
  method ModeArguments(ps: seq<Option<string>>) returns (s: array<Option<string>>)
    requires |ps| >= 2
    ensures fresh(s) && s[..] == ps[2..]
  {
    s := new Option<string>[|ps| - 2];
    var i := 0;
    while i < s.Length
      invariant 0 <= i <= s.Length
      invariant forall j :: 0 <= j < i ==> s[j] == ps[j + 2]
    {
      s[i] := ps[i + 2];
      i := i + 1;
    }
    assert forall j :: 0 <= j < s.Length ==> s[..][j] == ps[2..][j];
  }

  /** The parameter holding the target: the second for KICK, the first for PRIVMSG and NOTICE. */
  function TargetIndex(command: string): nat {
    if command == "KICK" then 1 else 0
  }

  /**
   * The target KICK, PRIVMSG and NOTICE parse before looking for a handler: a
   * missing parameter throws, a null one throws on StartsWith, and otherwise
   * IrcTarget.Parse decides.
   */
  function ChatTarget(m: Message): (r: Result<Target>)
    ensures r.Success? <==>
      |m.parameters| > TargetIndex(m.command) && m.parameters[TargetIndex(m.command)].Some?
      && ParseTarget(m.parameters[TargetIndex(m.command)].value).Success?
    ensures |m.parameters| <= TargetIndex(m.command) ==> r == Failure(ArgumentOutOfRange)
    ensures |m.parameters| > TargetIndex(m.command) && m.parameters[TargetIndex(m.command)].None? ==>
      r == Failure(NullReference)
    ensures |m.parameters| > TargetIndex(m.command) && m.parameters[TargetIndex(m.command)].Some? ==>
      r == ParseTarget(m.parameters[TargetIndex(m.command)].value)
  {
    var i := TargetIndex(m.command);
    if |m.parameters| <= i then Failure(ArgumentOutOfRange)
    else if m.parameters[i].None? then Failure(NullReference)
    else ParseTarget(m.parameters[i].value)
  }

  /**
   * A chat message whose target cannot be parsed makes ProcessMessage throw:
   * a PRIVMSG with no parameters, and one to "a@b!c", whose '!' comes after
   * the '@'.
   */
  lemma ChatTargetFaults(from: Option<Prefix>)
    ensures ChatTarget(Message(None, from, "PRIVMSG", [])) == Failure(ArgumentOutOfRange)
    ensures ChatTarget(Message(None, from, "PRIVMSG", [Some("a@b!c"), Some("hi")])).Failure?
  {
    var s := "a@b!c";
    assert s == "a" + ['@'] + "b!c";
    IndexOfAfterFree("a", '@', "b!c");
    SplitFirst("a", '@', "b!c");
    assert s == "a@b" + ['!'] + "c";
    IndexOfAfterFree("a@b", '!', "c");
    assert '*' !in s;
  }

  // ---------------------------------------------------------------------------
  // The client
  // ---------------------------------------------------------------------------

  /** The Irc module: its nickname, its text limits, and the messages queued on its connection. */
  class Irc {
    var nickname: Option<string>
    var maxTextLength: int
    var textSplitChars: string
    var queue: seq<Message>

    constructor(nickname: Option<string>, maxTextLength: int)
      ensures this.nickname == nickname && this.maxTextLength == maxTextLength
      ensures textSplitChars == " " && queue == []
    {
      this.nickname := nickname;
      this.maxTextLength := maxTextLength;
      textSplitChars := " ";
      queue := [];
    }

    /**
     * Irc.Say(to, text, format): one PRIVMSG per line; a recipient with a space
     * makes the first message's constructor throw before anything is queued.
     */
    method Say(to: string, text: string, format: TextFormat) returns (r: Outcome)
      modifies this
      ensures nickname == old(nickname) && maxTextLength == old(maxTextLength) && textSplitChars == old(textSplitChars)
      ensures r.Fail? <==> ' ' in to
      ensures r.Fail? ==> queue == old(queue)
      ensures r.Pass? ==> queue == old(queue) + Privmsgs(to, Lines(text, maxTextLength, textSplitChars, format))
      decreases |text|
    {
      if format == Split && maxTextLength > 0 && |text| > maxTextLength {
        var i := SplitPosition(text, maxTextLength, textSplitChars);
        ghost var before := queue;
        r := Say(to, text[..i + 1], Raw);
        if r.Fail? {
          return;
        }
        r := Say(to, text[i + 1..], Split);
        SayStep(to, before, text, maxTextLength, textSplitChars, i + 1);
      } else {
        PrivmsgFails(to, text);
        var m := NewMessage(None, "PRIVMSG", [Some(to), Some(text)]);
        if m.Failure? {
          return Fail(m.error);
        }
        queue := queue + [m.value];
        r := Pass;
      }
    }

    /** Irc.Mode: a MODE request carrying the target, the modes and the mode arguments. */
    method Mode(target: Target, modes: string, arguments: seq<Option<string>>) returns (r: Outcome)
      modifies this
      ensures nickname == old(nickname) && maxTextLength == old(maxTextLength) && textSplitChars == old(textSplitChars)
      ensures var m := Construct(ModePrefix(target), "MODE", ModeParameters(target, modes, arguments));
        (r.Pass? <==> m.Success?)
        && (r.Pass? ==> queue == old(queue) + [m.value])
        && (r.Fail? ==> queue == old(queue))
    {
      var parameters := ModeParameterArray(target, modes, arguments);
      var prefix := if target.IsChannel() then Some(target.channel) else target.nickname;
      var m := NewMessage(prefix, "MODE", parameters[..]);
      if m.Failure? {
        return Fail(m.error);
      }
      queue := queue + [m.value];
      r := Pass;
    }

    /**
     * The PING, NICK and MODE branches of ProcessMessage: PING queues a PONG, a
     * NICK from the client itself renames it, and MODE (when a handler listens)
     * yields the mode change. KICK, PRIVMSG and NOTICE parse their target,
     * which may throw, and otherwise change nothing here; every other command
     * changes nothing.
     */
    method ProcessMessage(m: Message, modeHandler: bool) returns (r: Result<Option<ModeChange>>)
      modifies this
      ensures maxTextLength == old(maxTextLength) && textSplitChars == old(textSplitChars)
      ensures m.command == "PING" ==>
        (r == Success(None) && nickname == old(nickname)
         && queue == old(queue) + [Construct(None, "PONG", []).value])
      ensures m.command == "NICK" ==> queue == old(queue)
      ensures m.command == "NICK" && !FromSelf(m, old(nickname)) ==> r == Success(None) && nickname == old(nickname)
      ensures m.command == "NICK" && FromSelf(m, old(nickname)) && |m.parameters| == 0 ==>
        (r == Failure(ArgumentOutOfRange) && nickname == old(nickname))
      ensures m.command == "NICK" && FromSelf(m, old(nickname)) && |m.parameters| > 0 ==>
        (r == Success(None) && nickname == m.parameters[0])
      ensures m.command == "MODE" ==> queue == old(queue) && nickname == old(nickname)
      ensures m.command == "MODE" && !modeHandler ==> r == Success(None)
      ensures m.command == "MODE" && modeHandler ==>
        (r == match ModeOf(m, old(nickname)) case Success(c) => Success(Some(c)) case Failure(e) => Failure(e))
      ensures m.command in {"KICK", "PRIVMSG", "NOTICE"} ==>
        queue == old(queue) && nickname == old(nickname)
        && (r.Failure? <==> ChatTarget(m).Failure?)
        && (r.Failure? ==> r.error == ChatTarget(m).error)
        && (r.Success? ==> r == Success(None))
      ensures m.command !in {"PING", "NICK", "MODE", "KICK", "PRIVMSG", "NOTICE"} ==>
        r == Success(None) && queue == old(queue) && nickname == old(nickname)
    {
      var isSelf := m.from.Some? && m.from.value.nickname == nickname;
      r := Success(None);
      if m.command == "PING" {
        var pong := NewMessage(None, "PONG", []);
        queue := queue + [pong.value];
      } else if m.command == "NICK" {
        if isSelf {
          if |m.parameters| == 0 {
            return Failure(ArgumentOutOfRange);
          }
          nickname := m.parameters[0];
        }
      } else if m.command == "MODE" {
        if modeHandler {
          var ps := m.parameters;
          if |ps| == 0 {
            return Failure(ArgumentOutOfRange);
          }
          if ps[0].None? {
            return Failure(NullReference);
          }
          var target := ParseTarget(ps[0].value);
          if target.Failure? {
            return Failure(target.error);
          }
          if |ps| < 2 {
            return Failure(Overflow);
          }
          var s := ModeArguments(ps);
          var t := target.value;
          var targetIsSelf := TargetNickname(t) == nickname;
          r := Success(Some(ModeChange(isSelf, targetIsSelf, t, ps[1], s[..])));
        }
      } else if m.command == "KICK" || m.command == "PRIVMSG" || m.command == "NOTICE" {
        var target := ChatTarget(m);
        if target.Failure? {
          return Failure(target.error);
        }
      }
    }
  }
}
