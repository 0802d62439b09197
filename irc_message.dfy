/**
 * An IRC protocol message, "[:prefix SPACE] command {SPACE param} [SPACE :trailing]"
 * as section 2.3.1 of RFC 1459 gives its grammar, with the 512-character line
 * limit of section 2.3. A message is immutable once constructed.
 */
module IrcMessages {
  import opened Wrappers
  import opened Chars
  import opened IrcPeers

  /** The longest line Parse reads, CR-LF included. */
  const MaxLine := 512

  /** IrcMessage: the prefix text, the peer parsed from it, the command and the parameters (any may be null). */
  datatype Message = Message(prefix: Option<string>, from: Option<Prefix>, command: string, parameters: seq<Option<string>>)

  // ---------------------------------------------------------------------------
  // Construction
  // ---------------------------------------------------------------------------

  /**
   * The fault the constructor's check raises, looking at every parameter but the
   * last from position i on: a null one throws NullReferenceException on IndexOf,
   * one with a space throws ArgumentException.
   */
  function ParameterFault(ps: seq<Option<string>>, i: nat): Option<Exception>
    decreases |ps| - i
  {
    if i + 1 >= |ps| then None
    else if ps[i].None? then Some(NullReference)
    else if ' ' in ps[i].value then Some(ArgumentError)
    else ParameterFault(ps, i + 1)
  }

  /** Every parameter but the last is present and free of spaces. */
  predicate WellFormedParameters(ps: seq<Option<string>>) {
    forall i :: 0 <= i < |ps| - 1 ==> ps[i].Some? && ' ' !in ps[i].value
  }

  /** The check passes exactly on well-formed parameters. */
  lemma {:induction false} ParameterFaultExactly(ps: seq<Option<string>>, i: nat)
    ensures ParameterFault(ps, i).None? <==> forall j :: i <= j < |ps| - 1 ==> ps[j].Some? && ' ' !in ps[j].value
    decreases |ps| - i
  {
    if i + 1 < |ps| {
      ParameterFaultExactly(ps, i + 1);
    }
  }

  /** new IrcMessage(prefix, command, parameters) */
  function Construct(prefix: Option<string>, command: string, ps: seq<Option<string>>): (r: Result<Message>)
    ensures r.Success? <==> ParsePrefix(prefix).Success? && WellFormedParameters(ps)
    ensures r.Success? ==> (r.value.prefix == prefix && r.value.from == ParsePrefix(prefix).value
      && r.value.command == Upper(command) && r.value.parameters == ps)
  {
    ParameterFaultExactly(ps, 0);
    match ParsePrefix(prefix)
    case Failure(e) => Failure(e)
    case Success(from) =>
      var m := Message(prefix, from, Upper(command), ps);
      if ParameterFault(ps, 0).Some? then Failure(ParameterFault(ps, 0).value) else Success(m)
  }

  /** The constructor, with its checking loop over all parameters but the last. */
  method NewMessage(prefix: Option<string>, command: string, ps: seq<Option<string>>) returns (r: Result<Message>)
    ensures r == Construct(prefix, command, ps)
  {
    var from := ParsePrefix(prefix);
    if from.Failure? {
      return Failure(from.error);
    }
    var m := Message(prefix, from.value, Upper(command), ps);
    var i := 0;
    while i + 1 < |ps|
      invariant 0 <= i <= |ps| || |ps| == 0
      invariant ParameterFault(ps, 0) == ParameterFault(ps, i)
      decreases |ps| - i
    {
      if ps[i].None? {
        return Failure(NullReference);
      }
      if ' ' in ps[i].value {
        return Failure(ArgumentError);
      }
      i := i + 1;
    }
    return Success(m);
  }

  // ---------------------------------------------------------------------------
  // Serialising
  // ---------------------------------------------------------------------------

  /** The text IrcMessage.ToString appends for parameter i: nothing when null, ":" before the last. */
  function ParameterText(ps: seq<Option<string>>, i: nat): string
    requires i < |ps|
  {
    if ps[i].None? then "" else " " + (if i == |ps| - 1 then ":" else "") + ps[i].value
  }

  /** The parameters from position i on, as ToString writes them. */
  function ParametersText(ps: seq<Option<string>>, i: nat): string
    requires i <= |ps|
    decreases |ps| - i
  {
    if i == |ps| then "" else ParameterText(ps, i) + ParametersText(ps, i + 1)
  }

  /** The head of the line: ":prefix " when there is a prefix, then the command. */
  function Head(m: Message): string {
    (if m.prefix.Some? then ":" + m.prefix.value + " " else "") + m.command
  }

  /** The whole line IrcMessage.ToString builds. */
  function Line(m: Message): string {
    Head(m) + ParametersText(m.parameters, 0)
  }

  lemma AppendText(s: string, ps: seq<Option<string>>, i: nat)
    requires i < |ps|
    ensures s + ParametersText(ps, i) == (s + ParameterText(ps, i)) + ParametersText(ps, i + 1)
  {
    assert ParametersText(ps, i) == ParameterText(ps, i) + ParametersText(ps, i + 1);
  }

  lemma AppendPiece(before: string, mark: string, v: string)
    ensures before + " " + mark + v == before + (" " + mark + v)
  {
  }

  /** IrcMessage.ToString */
  method ToString(m: Message) returns (s: string)
    ensures s == Line(m)
  {
    s := Head(m);
    var ps := m.parameters;
    var i := 0;
    ghost var line := Line(m);
    while i < |ps|
      invariant 0 <= i <= |ps|
      invariant s + ParametersText(ps, i) == line
    {
      ghost var before := s;
      if ps[i].Some? {
        s := s + " ";
        ghost var mark := "";
        assert s == before + " " + mark;
        if i == |ps| - 1 {
          s := s + ":";
          mark := ":";
        }
        s := s + ps[i].value;
        AppendPiece(before, mark, ps[i].value);
      }
      assert s == before + ParameterText(ps, i);
      AppendText(before, ps, i);
      i := i + 1;
    }
  }

  // ---------------------------------------------------------------------------
  // Parsing
  // ---------------------------------------------------------------------------

  function Min(a: int, b: int): int { if a < b then a else b }

  /** The characters Parse reads: the first 512 at most. */
  function Window(data: string): (c: string)
    ensures |c| == Min(|data|, MaxLine) && c == data[..|c|]
  {
    data[..Min(|data|, MaxLine)]
  }

  /** What is left of the line from the cursor k on: nothing once the cursor is past the end. */
  function Rest(c: string, k: nat): (r: string)
    ensures k <= |c| ==> r == c[k..]
    ensures k >= |c| ==> r == ""
  {
    if k >= |c| then "" else c[k..]
  }

  /** Where a scan of t from i that stops at a space stops. */
  function WordEnd(t: string, i: nat): (r: nat)
    requires i <= |t|
    ensures i <= r <= |t| && (r < |t| ==> t[r] == ' ')
    ensures forall j :: i <= j < r ==> t[j] != ' '
    decreases |t| - i
  {
    if i == |t| || t[i] == ' ' then i else WordEnd(t, i + 1)
  }

  /** What a scan that stops at a space collects from the start of t: everything before the first space. */
  function Word(t: string): (w: string)
    ensures |w| <= |t| && w == t[..|w|]
    ensures ' ' !in w
    ensures |w| < |t| ==> t[|w|] == ' '
  {
    var w := t[..WordEnd(t, 0)];
    assert forall j :: 0 <= j < |w| ==> w[j] == t[j];
    w
  }

  /** A scan stops at the first space. */
  lemma {:induction false} WordEndAt(t: string, i: nat, r: nat)
    requires i <= r <= |t| && (r < |t| ==> t[r] == ' ')
    requires forall j :: i <= j < r ==> t[j] != ' '
    ensures WordEnd(t, i) == r
    decreases r - i
  {
    if i < r {
      WordEndAt(t, i + 1, r);
    }
  }

  /** What is left after the word and the space that stopped the scan (the cursor steps over it). */
  function Skip(t: string): (r: string)
    ensures |r| < |t| || t == ""
  {
    var w := Word(t);
    if |w| == |t| then "" else t[|w| + 1..]
  }

  /** The parameters the parameter loop collects from t: a ':' starts the trailing one, which runs to the end. */
  function ParametersOf(t: string): seq<string>
    decreases |t|
  {
    if |t| == 0 then []
    else if t[0] == ':' then [t[1..]]
    else [Word(t)] + ParametersOf(Skip(t))
  }

  /** The prefix: the word after a leading ':'. */
  function PrefixOf(c: string): Option<string>
    requires |c| > 0
  {
    if c[0] == ':' then Some(Word(c[1..])) else None
  }

  /** The line after the prefix and its space: the command and the parameters. */
  function AfterPrefix(c: string): string
    requires |c| > 0
  {
    if c[0] == ':' then Skip(c[1..]) else c
  }

  function Present(xs: seq<string>): (r: seq<Option<string>>)
    ensures |r| == |xs| && forall i :: 0 <= i < |xs| ==> r[i] == Some(xs[i])
  {
    if xs == [] then [] else [Some(xs[0])] + Present(xs[1..])
  }

  /** IrcMessage.Parse: an empty line throws on c[0]; otherwise the message the parsed parts construct. */
  function ParseLine(data: string): Result<Message> {
    var c := Window(data);
    if |c| == 0 then Failure(IndexOutOfRange)
    else
      var rest := AfterPrefix(c);
      Construct(PrefixOf(c), Word(rest), Present(ParametersOf(Skip(rest))))
  }

  /** Stepping the cursor over a scanned word and its space leaves what Skip leaves. */
  lemma SkipRest(c: string, start: nat, next: nat)
    requires next == start + |Word(Rest(c, start))| + 1
    ensures Skip(Rest(c, start)) == Rest(c, next)
  {
    if start < |c| {
      var t := c[start..];
      var w := Word(t);
      if |w| < |t| {
        assert t[|w| + 1..] == c[start + |w| + 1..];
      }
    }
  }

  /** A space-free word followed by a space or the end is what a scan collects. */
  lemma WordOf(w: string, x: string)
    requires ' ' !in w && (x == [] || x[0] == ' ')
    ensures Word(w + x) == w
    ensures Skip(w + x) == if x == [] then [] else x[1..]
  {
    var t := w + x;
    forall j | 0 <= j < |w|
      ensures t[j] != ' '
    {
      assert t[j] == w[j];
    }
    WordEndAt(t, 0, |w|);
    assert t[..|w|] == w;
    if x != [] {
      assert t[|w| + 1..] == x[1..];
    }
  }

  /** The scanning loop shared by the prefix, the command and each parameter. */
  method Scan(c: string, start: nat, trailing: bool) returns (word: string, pos: nat)
    ensures trailing ==> word == Rest(c, start) && pos == if start < |c| then |c| else start
    ensures !trailing ==> word == Word(Rest(c, start)) && pos == start + |word|
  {
    word := "";
    pos := start;
    while pos < |c|
      invariant start <= pos && (start < |c| ==> pos <= |c|)
      invariant start < |c| ==> word == c[start..pos]
      invariant start >= |c| ==> word == "" && pos == start
      invariant !trailing ==> ' ' !in word
      decreases |c| - pos
    {
      if c[pos] == ' ' && !trailing {
        break;
      }
      word := word + [c[pos]];
      pos := pos + 1;
    }
    if !trailing && start < |c| {
      assert c[start..] == word + c[pos..];
      WordOf(word, c[pos..]);
    }
  }

  /** The prefix part of IrcMessage.Parse: a leading ':' starts a prefix, scanned up to its space. */
  method ScanPrefix(c: string) returns (prefix: Option<string>, pos: nat)
    requires |c| > 0
    ensures prefix == PrefixOf(c) && Rest(c, pos) == AfterPrefix(c)
  {
    pos := 0;
    prefix := None;
    if c[0] == ':' {
      var text;
      text, pos := Scan(c, 1, false);
      prefix := Some(text);
      pos := pos + 1;
      SkipRest(c, 1, pos);
    }
  }

  /** The command part of IrcMessage.Parse: the word at the cursor, and the cursor past its space. */
  method ScanCommand(c: string, from: nat) returns (command: string, next: nat)
    ensures command == Word(Rest(c, from)) && Rest(c, next) == Skip(Rest(c, from))
  {
    var pos;
    command, pos := Scan(c, from, false);
    next := pos + 1;
    SkipRest(c, from, next);
  }

  /** IrcMessage.Parse, walking a cursor over the line. */
  method Parse(data: string) returns (r: Result<Message>)
    ensures r == ParseLine(data)
  {
    var size := if |data| > MaxLine then MaxLine else |data|;
    var c := data[..size];
    assert c == Window(data);
    if |c| == 0 {
      return Failure(IndexOutOfRange);
    }
    var prefix, pos := ScanPrefix(c);
    var command, next := ScanCommand(c, pos);
    var para := ParseParameters(c, next);
    r := NewMessage(prefix, command, Present(para));
  }

  lemma AppendAssoc<T>(a: seq<T>, b: seq<T>, c: seq<T>)
    ensures a + (b + c) == (a + b) + c
  {
  }

  /** One turn of the parameter loop: a trailing parameter runs to the end, any other to the next space. */
  lemma ParameterStep(c: string, at: nat, text: string, end: nat)
    requires at < |c|
    requires c[at] == ':' ==> text == Rest(c, at + 1) && end == (if at + 1 < |c| then |c| else at + 1)
    requires c[at] != ':' ==> text == Word(Rest(c, at)) && end == at + |text|
    ensures ParametersOf(Rest(c, at)) == [text] + ParametersOf(Rest(c, end + 1))
  {
    var t := Rest(c, at);
    assert t[0] == c[at];
    if c[at] == ':' {
      assert t[1..] == Rest(c, at + 1);
      assert Rest(c, end + 1) == "";
      assert [text] + [] == [text];
    } else {
      SkipRest(c, at, end + 1);
    }
  }

  /** One parameter at the cursor: after a ':' the trailing one, running to the end; otherwise a word. */
  method ScanParameter(c: string, pos: nat) returns (text: string, end: nat)
    requires pos < |c|
    ensures end >= pos
    ensures ParametersOf(Rest(c, pos)) == [text] + ParametersOf(Rest(c, end + 1))
  {
    var trailing := false;
    var at := pos;
    if c[at] == ':' {
      trailing := true;
      at := at + 1;
    }
    text, end := Scan(c, at, trailing);
    ParameterStep(c, pos, text, end);
  }

  /** The parameter loop of IrcMessage.Parse, from the cursor past the command. */
  method ParseParameters(c: string, start: nat) returns (para: seq<string>)
    ensures para == ParametersOf(Rest(c, start))
  {
    var pos := start;
    para := [];
    ghost var all := ParametersOf(Rest(c, start));
    while pos < |c|
      invariant para + ParametersOf(Rest(c, pos)) == all
      decreases |c| - pos
    {
      var text, end := ScanParameter(c, pos);
      ghost var later := ParametersOf(Rest(c, end + 1));
      AppendAssoc(para, [text], later);
      para := para + [text];
      pos := end + 1;
    }
    assert ParametersOf(Rest(c, pos)) == [];
    assert para + [] == para;
  }

  // ---------------------------------------------------------------------------
  // Properties
  // ---------------------------------------------------------------------------

  /** Every parameter but the last that Parse collects is free of spaces. */
  lemma {:induction false} ParametersSpaceFree(t: string)
    ensures forall i :: 0 <= i < |ParametersOf(t)| - 1 ==> ' ' !in ParametersOf(t)[i]
    decreases |t|
  {
    if |t| > 0 && t[0] != ':' {
      ParametersSpaceFree(Skip(t));
      var rest := ParametersOf(Skip(t));
      var ps := ParametersOf(t);
      assert ps == [Word(t)] + rest;
      forall i | 0 <= i < |ps| - 1
        ensures ' ' !in ps[i]
      {
        if i == 0 {
          assert ps[0] == Word(t);
        } else {
          assert ps[i] == rest[i - 1] && i - 1 < |rest| - 1;
        }
      }
    }
  }

  /**
   * Parse never trips the constructor's parameter check: it fails only on an
   * empty line or on a prefix that IrcPrefix.Parse cannot split.
   */
  lemma ParseFailsOnlyOnPrefix(data: string)
    ensures ParseLine(data).Failure? <==>
      |data| == 0 || ParsePrefix(PrefixOf(Window(data))).Failure?
  {
    var c := Window(data);
    if |c| > 0 {
      var ps := ParametersOf(Skip(AfterPrefix(c)));
      ParametersSpaceFree(Skip(AfterPrefix(c)));
      var present := Present(ps);
      forall i | 0 <= i < |present| - 1
        ensures present[i].Some? && ' ' !in present[i].value
      {
        assert present[i] == Some(ps[i]);
      }
      assert WellFormedParameters(present);
    }
  }

  /** Parameters ToString writes so that Parse splits them back apart. */
  predicate SimpleParameters(ps: seq<Option<string>>) {
    (forall i :: 0 <= i < |ps| ==> ps[i].Some?)
    && (forall i :: 0 <= i < |ps| - 1 ==> |ps[i].value| > 0 && ' ' !in ps[i].value && ps[i].value[0] != ':')
  }

  /** A message ToString can write and Parse read back. */
  predicate Transmissible(m: Message) {
    |Line(m)| <= MaxLine
    && ParsePrefix(m.prefix).Success? && m.from == ParsePrefix(m.prefix).value
    && (m.prefix.Some? ==> ' ' !in m.prefix.value)
    && |m.command| > 0 && ' ' !in m.command && m.command[0] != ':' && Upper(m.command) == m.command
    && SimpleParameters(m.parameters)
  }

  lemma PresentCons(x: string, xs: seq<string>)
    ensures Present([x] + xs) == [Some(x)] + Present(xs)
  {
    assert ([x] + xs)[1..] == xs;
  }

  /** The written parameters start with a space, unless there are none. */
  lemma ParametersTextStart(ps: seq<Option<string>>, i: nat)
    requires SimpleParameters(ps) && i <= |ps|
    ensures i < |ps| <==> |ParametersText(ps, i)| > 0
    ensures i < |ps| ==> ParametersText(ps, i)[0] == ' '
  {
    if i < |ps| {
      assert ParametersText(ps, i) == ParameterText(ps, i) + ParametersText(ps, i + 1);
    }
  }

  lemma LastParameterText(ps: seq<Option<string>>, i: nat)
    requires SimpleParameters(ps) && i == |ps| - 1
    ensures ParametersText(ps, i)[1..] == ":" + ps[i].value
  {
    assert ParametersText(ps, i) == ParameterText(ps, i) + ParametersText(ps, i + 1);
  }

  lemma MiddleParameterText(ps: seq<Option<string>>, i: nat)
    requires i < |ps| - 1 && ps[i].Some? && ps[i + 1].Some?
    ensures ParametersText(ps, i)[1..] == ps[i].value + ParametersText(ps, i + 1)
    ensures |ParametersText(ps, i + 1)| > 0 && ParametersText(ps, i + 1)[0] == ' '
  {
    var v := ps[i].value;
    var b := ParametersText(ps, i + 1);
    assert ParametersText(ps, i) == ParameterText(ps, i) + b;
    assert ParameterText(ps, i) == " " + v;
    DropSpace(v, b);
    assert b == ParameterText(ps, i + 1) + ParametersText(ps, i + 2);
  }

  lemma DropSpace(v: string, b: string)
    ensures (" " + v + b)[1..] == v + b
  {
  }

  /** A middle parameter is read up to the space that starts the next one. */
  lemma ParametersOfMiddle(p: string, tail: string)
    requires |p| > 0 && ' ' !in p && p[0] != ':' && |tail| > 0 && tail[0] == ' '
    ensures ParametersOf(p + tail) == [p] + ParametersOf(tail[1..])
  {
    WordOf(p, tail);
    assert (p + tail)[0] == p[0];
  }

  lemma SliceCons<T>(s: seq<T>, i: nat)
    requires i < |s|
    ensures s[i..] == [s[i]] + s[i + 1..]
  {
  }

  /** The parameters of a transmissible message read back from their text, past its first space. */
  lemma {:induction false} ParametersRoundTrip(ps: seq<Option<string>>, i: nat)
    requires SimpleParameters(ps) && i < |ps|
    ensures Present(ParametersOf(ParametersText(ps, i)[1..])) == ps[i..]
    decreases |ps| - i
  {
    var p := ps[i].value;
    if i == |ps| - 1 {
      LastParameterText(ps, i);
      assert ParametersOf(":" + p) == [p];
      PresentCons(p, []);
      SliceCons(ps, i);
    } else {
      var tail := ParametersText(ps, i + 1);
      MiddleParameterText(ps, i);
      ParametersOfMiddle(p, tail);
      ParametersRoundTrip(ps, i + 1);
      PresentCons(p, ParametersOf(tail[1..]));
      SliceCons(ps, i);
    }
  }

  lemma PrefixedHead(pre: string, rest: string)
    requires ' ' !in pre
    ensures var c := ":" + pre + " " + rest; |c| > 0 && PrefixOf(c) == Some(pre) && AfterPrefix(c) == rest
  {
    var c := ":" + pre + " " + rest;
    assert c[1..] == pre + (" " + rest);
    WordOf(pre, " " + rest);
    assert (" " + rest)[1..] == rest;
  }

  /** The head of a transmissible message's line reads back as its prefix and command. */
  lemma HeadRoundTrip(m: Message)
    requires Transmissible(m)
    ensures var c := Line(m);
      |c| > 0 && PrefixOf(c) == m.prefix && AfterPrefix(c) == m.command + ParametersText(m.parameters, 0)
  {
    var rest := m.command + ParametersText(m.parameters, 0);
    if m.prefix.Some? {
      AppendAssoc(":" + m.prefix.value + " ", m.command, ParametersText(m.parameters, 0));
      PrefixedHead(m.prefix.value, rest);
    } else {
      assert Line(m) == rest;
      assert rest[0] == m.command[0];
    }
  }

  /** Parse reads back the prefix, command and parameters of a transmissible message. */
  lemma TailRoundTrip(command: string, ps: seq<Option<string>>)
    requires SimpleParameters(ps) && ' ' !in command
    ensures Word(command + ParametersText(ps, 0)) == command
    ensures Present(ParametersOf(Skip(command + ParametersText(ps, 0)))) == ps
  {
    var text := ParametersText(ps, 0);
    ParametersTextStart(ps, 0);
    WordOf(command, text);
    if |ps| > 0 {
      ParametersRoundTrip(ps, 0);
      assert ps[0..] == ps;
    }
  }

  lemma ParseToString(m: Message)
    requires Transmissible(m)
    ensures ParseLine(Line(m)) == Success(m)
  {
    var c := Line(m);
    HeadRoundTrip(m);
    assert Window(c) == c;
    TailRoundTrip(m.command, m.parameters);
    UpperIdempotent(m.command);
  }
}
