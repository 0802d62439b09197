/**
 * StringTokenizer: splitting an alias's argument string into tokens, each a
 * run of non-white-space characters or a double-quoted string with C-style
 * backslash escapes, and decoding those escapes (MakeStringRaw).
 */
module StringTokenizer {
  import opened Wrappers
  import opened Chars
  import opened Strings

  // ---------------------------------------------------------------------------
  // Number parsing used by the escapes
  // ---------------------------------------------------------------------------

  /** Every character of t is a hexadecimal digit. */
  predicate AllHex(t: string) {
    forall k :: 0 <= k < |t| ==> IsHexDigit(t[k])
  }

  function Power16(n: nat): (p: nat)
    ensures p >= 1
  {
    if n == 0 then 1 else 16 * Power16(n - 1)
  }

  /** The value of a string of hexadecimal digits, most significant first. */
  function HexNumber(t: string): (v: nat)
    requires AllHex(t)
    ensures v < Power16(|t|)
  {
    if t == [] then 0
    else
      var h := HexNumber(t[..|t| - 1]);
      var d := HexValue(t[|t| - 1]);
      assert h * 16 + d < Power16(|t| - 1) * 16 by {
        assert h <= Power16(|t| - 1) - 1;
        assert h * 16 <= Power16(|t| - 1) * 16 - 16;
      }
      h * 16 + d
  }

  /** int.TryParse with AllowHexSpecifier: the value, or -1 when the text is not hexadecimal. */
  function TryParseHex(t: string): (r: int)
    ensures r >= 0 <==> |t| > 0 && AllHex(t)
    ensures r >= 0 ==> r < Power16(|t|)
    ensures |t| == 2 ==> r < 0x100
    ensures |t| == 4 ==> r < 0x1_0000
  {
    assert Power16(2) == 0x100 by {
      assert Power16(1) == 16;
    }
    assert Power16(4) == 0x1_0000 by {
      assert Power16(3) == 0x1000;
    }
    if |t| > 0 && AllHex(t) then HexNumber(t) else -1
  }

  /** Convert.ToInt32(t, 8): the octal value, or a FormatException for a digit outside 0-7. */
  function ParseOctal(t: string): (r: Result<nat>)
    requires |t| == 3
    ensures r.Success? <==> forall k :: 0 <= k < 3 ==> '0' <= t[k] <= '7'
    ensures r.Success? ==> r.value < 512
    ensures r.Failure? ==> r.error == FormatError
  {
    if forall k :: 0 <= k < 3 ==> '0' <= t[k] <= '7' then
      Success(64 * (t[0] as int - '0' as int) + 8 * (t[1] as int - '0' as int) + (t[2] as int - '0' as int))
    else Failure(FormatError)
  }

  // ---------------------------------------------------------------------------
  // MakeStringRaw
  // ---------------------------------------------------------------------------

  /**
   * One turn of MakeStringRaw's loop at position i: the one character it
   * appends and how far it advances, or the exception it throws.
   */
  function Step(s: string, i: nat): (r: Result<(char, nat)>)
    requires 1 <= i < |s| - 1
    ensures r.Success? ==> 1 <= r.value.1 <= |s| - i
    ensures s[i] != '\\' || i == |s| - 2 ==> r == Success((s[i], 1))
    ensures r.Failure? ==> r.error == FormatError
  {
    if s[i] == '\\' && i < |s| - 2 then
      var c1 := s[i + 1];
      if c1 == '"' || c1 == '\\' || c1 == '\'' then Success((c1, 2))
      else if c1 == 'b' then Success(('\U{0008}', 2))
      else if c1 == 'f' then Success(('\U{000C}', 2))
      else if c1 == 'n' then Success(('\n', 2))
      else if c1 == 'O' then Success(('\0', 2))
      else if c1 == 'r' then Success(('\r', 2))
      else if c1 == 't' then Success(('\t', 2))
      else if c1 == 'v' then Success(('\U{000B}', 2))
      else if c1 == 'u' then
        if i < |s| - 5 && TryParseHex(s[i + 2..i + 6]) >= 0 then Success((CodeUnit(TryParseHex(s[i + 2..i + 6])), 6))
        else Success(('\\', 1))
      else if c1 == 'x' then
        if i < |s| - 3 && TryParseHex(s[i + 2..i + 4]) >= 0 then Success((TryParseHex(s[i + 2..i + 4]) as char, 4))
        else Success(('\\', 2))
      else if '0' <= c1 <= '3' then
        if i < |s| - 3 && IsNumber(s[i + 1]) && IsNumber(s[i + 2]) && IsNumber(s[i + 3]) then
          // the leading digit is 0-3, so the value never exceeds 255
          match ParseOctal(s[i + 1..i + 4])
          case Failure(e) => Failure(e)
          case Success(v) => Success((v as char, 4))
        else Success(('\\', 1))
      else Success(('\\', 1))
    else Success((s[i], 1))
  }

  /** A character in front of a result that may be an exception. */
  function Prepend(p: string, r: Result<string>): Result<string> {
    match r
    case Failure(e) => Failure(e)
    case Success(t) => Success(p + t)
  }

  /** What MakeStringRaw appends from position i on. */
  function RawFrom(s: string, i: nat): Result<string>
    requires i >= 1
    decreases |s| - i
  {
    if i >= |s| - 1 then Success("")
    else match Step(s, i)
      case Failure(e) => Failure(e)
      case Success(step) => Prepend([step.0], RawFrom(s, i + step.1))
  }

  lemma PrependAssoc(p: string, q: string, r: Result<string>)
    ensures Prepend(p, Prepend(q, r)) == Prepend(p + q, r)
  {
    if r.Success? {
      assert p + (q + r.value) == (p + q) + r.value;
    }
  }

  /**
   * The body of MakeStringRaw's loop at position i: the switch over the
   * character after a backslash, giving the character appended and how far i
   * moves on (the loop's own increment included).
   */
  method Unescape(s: string, i: nat) returns (r: Result<(char, nat)>)
    requires 1 <= i < |s| - 1
    ensures r == Step(s, i)
  {
    var j := i;
    var next: char;
    if s[j] == '\\' && j < |s| - 2 {
      var c1 := s[j + 1];
      if c1 == '"' || c1 == '\\' || c1 == '\'' {
        next := c1;
        j := j + 1;
      } else if c1 == 'b' {
        next := '\U{0008}';
        j := j + 1;
      } else if c1 == 'f' {
        next := '\U{000C}';
        j := j + 1;
      } else if c1 == 'n' {
        next := '\n';
        j := j + 1;
      } else if c1 == 'O' {
        next := '\0';
        j := j + 1;
      } else if c1 == 'r' {
        next := '\r';
        j := j + 1;
      } else if c1 == 't' {
        next := '\t';
        j := j + 1;
      } else if c1 == 'v' {
        next := '\U{000B}';
        j := j + 1;
      } else if c1 == 'u' {
        var success := false;
        next := '\\';
        if j < |s| - 5 {
          var value := TryParseHex(s[j + 2..j + 6]);
          if value >= 0 {
            success := true;
            next := CodeUnit(value);
          }
        }
        if success {
          j := j + 5;
        }
      } else if c1 == 'x' {
        var success := false;
        next := '\\';
        if j < |s| - 3 {
          var value := TryParseHex(s[j + 2..j + 4]);
          if value >= 0 {
            success := true;
            next := value as char;
          }
        }
        if success {
          j := j + 3;
        } else {
          j := j + 1;
        }
      } else if '0' <= c1 <= '3' {
        var success := false;
        next := '\\';
        if j < |s| - 3 {
          if IsNumber(s[j + 1]) && IsNumber(s[j + 2]) && IsNumber(s[j + 3]) {
            var value := ParseOctal(s[j + 1..j + 4]);
            if value.Failure? {
              return Failure(value.error);
            }
            next := value.value as char;
            success := true;
          }
        }
        if success {
          j := j + 3;
        }
      } else {
        next := '\\';
      }
    } else {
      next := s[j];
    }
    r := Success((next, j + 1 - i));
  }

  /** StringTokenizer.MakeStringRaw: the characters between the first and the last, escapes decoded. */
  method MakeStringRaw(s: string) returns (r: Result<string>)
    ensures r == RawFrom(s, 1)
  {
    var raw := "";
    var i := 1;
    assert Prepend(raw, RawFrom(s, i)) == RawFrom(s, 1) by {
      if RawFrom(s, 1).Success? {
        assert raw + RawFrom(s, 1).value == RawFrom(s, 1).value;
      }
    }
    while i < |s| - 1
      invariant i >= 1
      invariant Prepend(raw, RawFrom(s, i)) == RawFrom(s, 1)
      decreases |s| - i
    {
      var step := Unescape(s, i);
      if step.Failure? {
        return Failure(step.error);
      }
      PrependAssoc(raw, [step.value.0], RawFrom(s, i + step.value.1));
      raw := raw + [step.value.0];
      i := i + step.value.1;
    }
    assert raw + "" == raw;
    r := Success(raw);
  }

  /** Each turn appends exactly one character, so the result is at most |s| - 2 long. */
  lemma {:induction false} RawLength(s: string, i: nat)
    requires 1 <= i
    ensures RawFrom(s, i).Success? ==> |RawFrom(s, i).value| <= if i < |s| - 1 then |s| - 1 - i else 0
    decreases |s| - i
  {
    if i < |s| - 1 && Step(s, i).Success? {
      RawLength(s, i + Step(s, i).value.1);
    }
  }

  /**
   * Without a backslash before the last inner position, the inner characters
   * are copied unchanged.
   */
  lemma {:induction false} RawPlain(s: string, i: nat)
    requires 1 <= i <= |s| - 1
    requires forall k :: i <= k < |s| - 2 ==> s[k] != '\\'
    ensures RawFrom(s, i) == Success(s[i..|s| - 1])
    decreases |s| - i
  {
    if i < |s| - 1 {
      RawPlain(s, i + 1);
      assert s[i..|s| - 1] == [s[i]] + s[i + 1..|s| - 1];
    }
  }

  lemma StepIgnoresFirst(s: string, t: string, i: nat)
    requires |s| == |t| && |s| >= 1 && s[1..] == t[1..] && 1 <= i < |s| - 1
    ensures Step(s, i) == Step(t, i)
  {
    forall k | 1 <= k < |s|
      ensures s[k] == t[k]
    {
      assert s[k] == s[1..][k - 1];
    }
    if i + 6 <= |s| {
      assert s[i + 2..i + 6] == t[i + 2..i + 6];
    }
    if i + 4 <= |s| {
      assert s[i + 2..i + 4] == t[i + 2..i + 4];
      assert s[i + 1..i + 4] == t[i + 1..i + 4];
    }
  }

  lemma StepIgnoresLast(p: string, a: char, b: char, i: nat)
    requires !IsHexDigit(a) && !IsHexDigit(b) && 1 <= i < |p|
    ensures Step(p + [a], i) == Step(p + [b], i)
  {
    var s, t := p + [a], p + [b];
    forall k | 0 <= k < |p|
      ensures s[k] == t[k]
    {
    }
    if i + 6 <= |p| {
      assert s[i + 2..i + 6] == t[i + 2..i + 6];
    } else if i + 6 == |s| {
      assert s[i + 2..i + 6][3] == a && t[i + 2..i + 6][3] == b;
    }
    if i + 4 <= |p| {
      assert s[i + 2..i + 4] == t[i + 2..i + 4];
      assert s[i + 1..i + 4] == t[i + 1..i + 4];
    } else if i + 4 == |s| {
      assert s[i + 2..i + 4][1] == a && t[i + 2..i + 4][1] == b;
      assert s[i + 3] == a && t[i + 3] == b;
    }
  }

  /** MakeStringRaw never looks at the first character. */
  lemma {:induction false} RawIgnoresFirst(s: string, t: string, i: nat)
    requires |s| == |t| && |s| >= 1 && s[1..] == t[1..] && i >= 1
    ensures RawFrom(s, i) == RawFrom(t, i)
    decreases |s| - i
  {
    if i < |s| - 1 {
      StepIgnoresFirst(s, t, i);
      if Step(s, i).Success? {
        RawIgnoresFirst(s, t, i + Step(s, i).value.1);
      }
    }
  }

  /**
   * MakeStringRaw never looks at the last character unless it is a hexadecimal
   * digit, which a \u, \x or octal escape ending just before it reads.
   */
  lemma {:induction false} RawIgnoresLast(p: string, a: char, b: char, i: nat)
    requires !IsHexDigit(a) && !IsHexDigit(b) && i >= 1
    ensures RawFrom(p + [a], i) == RawFrom(p + [b], i)
    decreases |p| - i
  {
    var s, t := p + [a], p + [b];
    if i < |s| - 1 {
      StepIgnoresLast(p, a, b, i);
      if Step(s, i).Success? {
        RawIgnoresLast(p, a, b, i + Step(s, i).value.1);
      }
    }
  }

  /** An escape ending just before the last character reads it: "a\x41" gives "A". */
  lemma RawReadsLast()
    ensures RawFrom("a\\x41", 1) == Success("A")
  {
    var s := "a\\x41";
    var h := s[3..5];
    assert h == "41";
    assert AllHex(h);
    assert h[..1] == "4" && "4"[..0] == "";
    assert HexNumber("4") == 4;
    assert HexNumber(h) == 65;
    assert TryParseHex(h) == 65;
    assert Step(s, 1) == Success(('A', 4));
    assert RawFrom(s, 5) == Success("");
    assert ['A'] + "" == "A";
  }

  // ---------------------------------------------------------------------------
  // Tokenize
  // ---------------------------------------------------------------------------

  /**
   * The end of a quoted match whose opening quote is at 0, scanning from j:
   * plain characters, or a backslash followed by anything but a newline, until
   * the closing quote. None when the text ends first.
   */
  function QuotedEnd(t: string, j: nat): (r: Option<nat>)
    ensures r.Some? ==> j < r.value <= |t| && t[r.value - 1] == '"'
    decreases |t| - j
  {
    if j >= |t| then None
    else if t[j] == '"' then Some(j + 1)
    else if t[j] == '\\' then
      if j + 1 < |t| && t[j + 1] != '\n' then QuotedEnd(t, j + 2) else None
    else QuotedEnd(t, j + 1)
  }

  /** The end of the run of non-white-space characters starting at j. */
  function RunEnd(t: string, j: nat): (r: nat)
    requires j <= |t|
    ensures j <= r <= |t|
    ensures forall k :: j <= k < r ==> !IsWhiteSpace(t[k])
    ensures r < |t| ==> IsWhiteSpace(t[r])
    decreases |t| - j
  {
    if j == |t| || IsWhiteSpace(t[j]) then j else RunEnd(t, j + 1)
  }

  /**
   * The length of the match at the start of t: the quoted string when one
   * closes, otherwise the non-white-space run.
   */
  function MatchEnd(t: string): (e: nat)
    requires |t| > 0 && !IsWhiteSpace(t[0])
    ensures 1 <= e <= |t|
  {
    if t[0] == '"' && QuotedEnd(t, 1).Some? then QuotedEnd(t, 1).value else RunEnd(t, 0)
  }

  /** The token a match yields: a quoted match is decoded, any other kept as it is. */
  function TokenValue(m: string): Result<string> {
    if |m| > 0 && m[0] == '"' && m[|m| - 1] == '"' then RawFrom(m, 1) else Success(m)
  }

  /** A token in front of a token list that may be an exception. */
  function Cons(x: string, r: Result<seq<string>>): Result<seq<string>> {
    match r
    case Failure(e) => Failure(e)
    case Success(xs) => Success([x] + xs)
  }

  /** The tokens of t, in order; the first decoding that throws ends the list with its exception. */
  function Tokens(t: string): Result<seq<string>>
    decreases |t|
  {
    if t == [] then Success([])
    else if IsWhiteSpace(t[0]) then Tokens(t[1..])
    else
      var e := MatchEnd(t);
      match TokenValue(t[..e])
      case Failure(err) => Failure(err)
      case Success(v) => Cons(v, Tokens(t[e..]))
  }

  /** Tokens appended to a token list that may be an exception. */
  function Extend(xs: seq<string>, r: Result<seq<string>>): Result<seq<string>> {
    match r
    case Failure(e) => Failure(e)
    case Success(ys) => Success(xs + ys)
  }

  /** The scan for the match at the start of t. */
  method ScanMatch(t: string) returns (e: nat)
    requires |t| > 0 && !IsWhiteSpace(t[0])
    ensures e == MatchEnd(t)
  {
    if t[0] == '"' {
      var j := 1;
      var open := true;
      while open && j < |t| && t[j] != '"'
        invariant j >= 1
        invariant open ==> QuotedEnd(t, 1) == QuotedEnd(t, j)
        invariant !open ==> QuotedEnd(t, 1).None?
        decreases |t| - j, open
      {
        if t[j] == '\\' {
          if j + 1 < |t| && t[j + 1] != '\n' {
            j := j + 2;
          } else {
            open := false;
          }
        } else {
          j := j + 1;
        }
      }
      if open && j < |t| {
        return j + 1;
      }
    }
    e := 0;
    while e < |t| && !IsWhiteSpace(t[e])
      invariant e <= |t|
      invariant RunEnd(t, 0) == RunEnd(t, e)
      decreases |t| - e
    {
      e := e + 1;
    }
  }

  /** StringTokenizer.Tokenize, with the tokens collected into a list. */
  method Tokenize(s: string) returns (r: Result<seq<string>>)
    ensures r == Tokens(s)
  {
    var rest := s;
    var tokens := [];
    assert Extend(tokens, Tokens(rest)) == Tokens(s) by {
      if Tokens(s).Success? {
        assert tokens + Tokens(s).value == Tokens(s).value;
      }
    }
    while rest != []
      invariant Extend(tokens, Tokens(rest)) == Tokens(s)
      decreases |rest|
    {
      if IsWhiteSpace(rest[0]) {
        rest := rest[1..];
      } else {
        var e := ScanMatch(rest);
        var m := rest[..e];
        var v: Result<string>;
        if |m| > 0 && m[0] == '"' && m[|m| - 1] == '"' {
          v := MakeStringRaw(m);
        } else {
          v := Success(m);
        }
        if v.Failure? {
          return Failure(v.error);
        }
        ExtendCons(tokens, v.value, Tokens(rest[e..]));
        tokens := tokens + [v.value];
        rest := rest[e..];
      }
    }
    r := Success(tokens);
    assert tokens + [] == tokens;
  }

  lemma ExtendCons(xs: seq<string>, x: string, r: Result<seq<string>>)
    ensures Extend(xs, Cons(x, r)) == Extend(xs + [x], r)
  {
    if r.Success? {
      assert xs + ([x] + r.value) == (xs + [x]) + r.value;
    }
  }

  // ---------------------------------------------------------------------------
  // Quoting arguments so that Tokenize gives them back
  // ---------------------------------------------------------------------------

  /** A backslash before every backslash and double quote. */
  function Escaped(u: string): (r: string)
    ensures |r| >= |u|
  {
    if u == [] then [] else EscapeChar(u[0]) + Escaped(u[1..])
  }

  /** One character as it appears between quotes. */
  function EscapeChar(c: char): (r: string)
    ensures 1 <= |r| <= 2 && r[|r| - 1] == c
    ensures |r| == 2 <==> c == '\\' || c == '"'
    ensures |r| == 2 ==> r[0] == '\\'
  {
    if c == '\\' || c == '"' then ['\\', c] else [c]
  }

  /** The argument between double quotes, escaped. */
  function Quote(u: string): string {
    ['"'] + Escaped(u) + ['"']
  }

  /** An argument that stands for itself: non-empty, no white space, no opening quote. */
  predicate PlainArgument(a: string) {
    |a| > 0 && a[0] != '"' && forall k :: 0 <= k < |a| ==> !IsWhiteSpace(a[k])
  }

  function Encode(a: string): string {
    if PlainArgument(a) then a else Quote(a)
  }

  function EncodeAll(args: seq<string>): (r: seq<string>)
    ensures |r| == |args|
  {
    if args == [] then [] else [Encode(args[0])] + EncodeAll(args[1..])
  }

  /** An argument line: the encoded arguments separated by single spaces. */
  function CommandLine(args: seq<string>): string {
    Join(EncodeAll(args), ' ')
  }

  /** The quoted scan steps over one escaped character without stopping. */
  lemma QuotedEndEscapeChar(p: string, c: char, rest: string)
    ensures QuotedEnd(p + EscapeChar(c) + rest, |p|) == QuotedEnd(p + EscapeChar(c) + rest, |p| + |EscapeChar(c)|)
  {
    var t := p + EscapeChar(c) + rest;
    assert t[|p|] == EscapeChar(c)[0];
    if |EscapeChar(c)| == 2 {
      assert t[|p| + 1] == c;
    }
  }

  /** The quoted scan over an escaped text stops right after its closing quote. */
  lemma {:induction false} QuotedEndEscaped(p: string, u: string, rest: string)
    ensures QuotedEnd(p + Escaped(u) + ['"'] + rest, |p|) == Some(|p| + |Escaped(u)| + 1)
    decreases |u|
  {
    var t := p + Escaped(u) + ['"'] + rest;
    if u == [] {
      assert t[|p|] == '"';
    } else {
      var head := EscapeChar(u[0]);
      assert t == p + head + (Escaped(u[1..]) + ['"'] + rest);
      assert t == (p + head) + Escaped(u[1..]) + ['"'] + rest;
      QuotedEndEscapeChar(p, u[0], Escaped(u[1..]) + ['"'] + rest);
      QuotedEndEscaped(p + head, u[1..], rest);
    }
  }

  /** The loop reads one escaped character back in one step. */
  lemma StepEscapeChar(p: string, c: char, rest: string)
    requires |p| >= 1
    ensures Step(p + EscapeChar(c) + rest + ['"'], |p|) == Success((c, |EscapeChar(c)|))
  {
    var s := p + EscapeChar(c) + rest + ['"'];
    assert s[|p|] == EscapeChar(c)[0];
    if |EscapeChar(c)| == 2 {
      assert s[|p| + 1] == c;
    }
  }

  /** Decoding an escaped text between quotes gives the text back. */
  lemma {:induction false} RawEscaped(p: string, u: string)
    requires |p| >= 1
    ensures RawFrom(p + Escaped(u) + ['"'], |p|) == Success(u)
    decreases |u|
  {
    if u != [] {
      var head := EscapeChar(u[0]);
      var s := p + Escaped(u) + ['"'];
      assert s == p + head + Escaped(u[1..]) + ['"'];
      assert s == (p + head) + Escaped(u[1..]) + ['"'];
      StepEscapeChar(p, u[0], Escaped(u[1..]));
      RawEscaped(p + head, u[1..]);
      assert [u[0]] + u[1..] == u;
    }
  }

  /** A plain argument's run ends where the argument does. */
  lemma {:induction false} RunEndPlain(a: string, rest: string, j: nat)
    requires PlainArgument(a) && j <= |a|
    requires rest == [] || IsWhiteSpace(rest[0])
    ensures RunEnd(a + rest, j) == |a|
    decreases |a| - j
  {
    var t := a + rest;
    if j < |a| {
      assert t[j] == a[j];
      RunEndPlain(a, rest, j + 1);
    } else if rest != [] {
      assert t[j] == rest[0];
    }
  }

  /** One encoded argument, then white space or the end of the line. */
  lemma TokensEncoded(a: string, rest: string)
    requires rest == [] || rest[0] == ' '
    ensures Tokens(Encode(a) + rest) == Cons(a, Tokens(rest))
  {
    var t := Encode(a) + rest;
    var e := |Encode(a)|;
    if PlainArgument(a) {
      RunEndPlain(a, rest, 0);
      assert t[0] == a[0];
      assert MatchEnd(t) == e;
    } else {
      assert Quote(a) + rest == ['"'] + Escaped(a) + ['"'] + rest;
      QuotedEndEscaped(['"'], a, rest);
      assert t[0] == '"';
      assert MatchEnd(t) == e;
      RawEscaped(['"'], a);
    }
    assert t[..e] == Encode(a) && t[e..] == rest;
  }

  /** Tokenize reads back every argument list from its command line. */
  lemma {:induction false} TokenizeCommandLine(args: seq<string>)
    ensures Tokens(CommandLine(args)) == Success(args)
  {
    if |args| == 1 {
      assert EncodeAll(args) == [Encode(args[0])];
      TokensEncoded(args[0], []);
      assert Tokens([]) == Success([]);
      assert Encode(args[0]) + [] == CommandLine(args);
      assert [args[0]] + [] == args;
    } else if |args| == 0 {
      assert CommandLine(args) == [];
    } else if |args| > 1 {
      var tail := args[1..];
      assert EncodeAll(args) == [Encode(args[0])] + EncodeAll(tail);
      JoinCons(Encode(args[0]), EncodeAll(tail), ' ');
      var rest := [' '] + CommandLine(tail);
      assert CommandLine(args) == Encode(args[0]) + rest;
      TokensEncoded(args[0], rest);
      TokenizeCommandLine(tail);
      assert rest[1..] == CommandLine(tail);
      assert [args[0]] + tail == args;
    }
  }
}
