/** StringParser: the chatter tokenizer (Parse) and formatter (Format). */
module StringParser {
  import opened Wrappers
  import opened Chars
  import opened Symbols
  import opened BinaryFormat

  // ---------------------------------------------------------------------------
  // Parse
  // ---------------------------------------------------------------------------

  /** The end of a URL that starts at i: the first white space at or after i, or the end. */
  function UrlEnd(s: string, i: nat): (j: nat)
    requires i <= |s|
    ensures i <= j <= |s|
    ensures j < |s| ==> IsWhiteSpace(s[j])
    ensures forall k :: i <= k < j ==> !IsWhiteSpace(s[k])
    decreases |s| - i
  {
    if i == |s| || IsWhiteSpace(s[i]) then i else UrlEnd(s, i + 1)
  }

  /**
   * The symbols the parser emits from position i on, with buf holding the word
   * characters read since the last flush (in their original case).
   */
  function Scan(s: string, i: nat, buf: string): seq<Symbol>
    requires i <= |s|
    decreases |s| - i
  {
    if i == |s| then
      (if |buf| > 0 then [Word(Upper(buf))] else []) + [Terminate]
    else
      var ch := s[i];
      if !IsWordChar(ch) && |buf| > 0 && ch == ':' && (buf == "http" || buf == "https") then
        // the URL runs to the next white space, which the loop's increment then skips
        var j := UrlEnd(s, i);
        [Url(buf + s[i..j])] + Scan(s, if j < |s| then j + 1 else j, [])
      else
        var flushed := if !IsWordChar(ch) && |buf| > 0 then [Word(Upper(buf))] else [];
        if IsWordChar(ch) then Scan(s, i + 1, buf + [ch])
        else if IsPunctuationChar(ch) then flushed + [PunctuationOf(ch)] + Scan(s, i + 1, [])
        else flushed + Scan(s, i + 1, [])
  }

  /** What Parse yields: nothing for a null string, otherwise the scan from the start. */
  function Tokenize(input: Option<string>): seq<Symbol>
  {
    match input
    case None => []
    case Some(s) => Scan(s, 0, [])
  }

  /** The inner loop of Parse: a URL's characters run up to the next white space. */
  method ReadUrl(s: string, i: nat, buf: string) returns (url: string, j: nat)
    requires i <= |s|
    ensures j == UrlEnd(s, i)
    ensures url == buf + s[i..j]
  {
    url := buf;
    j := i;
    while j < |s| && !IsWhiteSpace(s[j])
      invariant i <= j <= |s|
      invariant url == buf + s[i..j]
      invariant UrlEnd(s, i) == UrlEnd(s, j)
    {
      url := url + [s[j]];
      j := j + 1;
    }
  }

  /** StringParser.Parse */
  method Parse(input: Option<string>) returns (symbols: seq<Symbol>)
    ensures symbols == Tokenize(input)
  {
    if input.None? {
      return [];
    }
    var s := input.value;
    var buf := "";
    symbols := [];
    var i := 0;
    ghost var all := Scan(s, 0, []);
    while i < |s|
      invariant 0 <= i <= |s|
      invariant symbols + Scan(s, i, buf) == all
    {
      var ch := s[i];
      if !IsWordChar(ch) && |buf| > 0 && ch == ':' && (buf == "http" || buf == "https") {
        var url, j := ReadUrl(s, i, buf);
        var next := if j < |s| then j + 1 else j;
        ghost var later := Scan(s, next, []);
        assert Scan(s, i, buf) == [Url(url)] + later;
        Shift(symbols, [Url(url)], later);
        symbols := symbols + [Url(url)];
        buf := "";
        // the for loop's increment steps over the white space that ended the URL
        i := next;
      } else if IsWordChar(ch) {
        assert Scan(s, i, buf) == Scan(s, i + 1, buf + [ch]);
        buf := buf + [ch];
        i := i + 1;
      } else {
        var emitted := Emitted(ch, buf);
        ghost var later := Scan(s, i + 1, []);
        ScanFlushStep(s, i, buf);
        Shift(symbols, emitted, later);
        symbols := symbols + emitted;
        buf := "";
        i := i + 1;
      }
    }
    if |buf| > 0 {
      symbols := symbols + [Word(Upper(buf))];
    }
    symbols := symbols + [Terminate];
  }

  /** The symbols a non-word character emits: the pending word, then its mark if it is punctuation. */
  function Emitted(ch: char, buf: string): (r: seq<Symbol>)
    ensures |r| <= 2
    ensures |buf| > 0 <==> |r| > 0 && r[0] == Word(Upper(buf))
    ensures IsPunctuationChar(ch) <==> |r| > 0 && r[|r| - 1] == PunctuationOf(ch)
  {
    var flushed := if |buf| > 0 then [Word(Upper(buf))] else [];
    if IsPunctuationChar(ch) then flushed + [PunctuationOf(ch)] else flushed
  }

  /** One step of the scan over a character that flushes the pending word. */
  lemma ScanFlushStep(s: string, i: nat, buf: string)
    requires i < |s| && !IsWordChar(s[i]) && !(|buf| > 0 && s[i] == ':' && (buf == "http" || buf == "https"))
    ensures Scan(s, i, buf) == Emitted(s[i], buf) + Scan(s, i + 1, [])
  {
  }

  lemma Shift(a: seq<Symbol>, b: seq<Symbol>, rest: seq<Symbol>)
    ensures a + (b + rest) == (a + b) + rest
  {
  }

  /** A word the parser can emit: non-empty, upper-cased, made of word characters. */
  predicate WellFormedWord(w: string) {
    |w| > 0 && Upper(w) == w && forall k :: 0 <= k < |w| ==> IsWordChar(w[k])
  }

  /** A URL the parser can emit: "http:" or "https:" followed by no white space. */
  predicate WellFormedUrl(u: string) {
    ("http:" <= u || "https:" <= u) && forall k :: 0 <= k < |u| ==> !IsWhiteSpace(u[k])
  }

  predicate WellFormedSymbol(x: Symbol) {
    match x
    case Word(w) => WellFormedWord(w)
    case Url(u) => WellFormedUrl(u)
    case Punctuation(k) => k < |PunctuationMarks|
    case Terminate => true
  }

  /** A parser result: well-formed symbols, the last one the only Terminate. */
  predicate WellFormedSymbols(r: seq<Symbol>) {
    && |r| >= 1
    && r[|r| - 1] == Terminate
    && (forall k :: 0 <= k < |r| - 1 ==> !r[k].Terminate?)
    && (forall k :: 0 <= k < |r| ==> WellFormedSymbol(r[k]))
  }

  lemma FlushedWord(buf: string)
    requires |buf| > 0
    requires forall k :: 0 <= k < |buf| ==> IsWordChar(buf[k])
    ensures WellFormedWord(Upper(buf))
  {
    UpperIdempotent(buf);
    forall k | 0 <= k < |buf|
      ensures IsWordChar(Upper(buf)[k])
    {
      assert IsWordChar(buf[k]);
    }
  }

  lemma PrependWellFormed(p: seq<Symbol>, r: seq<Symbol>)
    requires WellFormedSymbols(r)
    requires forall k :: 0 <= k < |p| ==> !p[k].Terminate? && WellFormedSymbol(p[k])
    ensures WellFormedSymbols(p + r)
  {
    var q := p + r;
    forall k | 0 <= k < |q|
      ensures WellFormedSymbol(q[k]) && (k < |q| - 1 ==> !q[k].Terminate?)
    {
      if k >= |p| {
        assert q[k] == r[k - |p|];
      }
    }
  }

  /** The URL a scan emits after "http" or "https" and a ':' is well-formed. */
  lemma UrlWellFormed(s: string, i: nat, buf: string)
    requires i < |s| && s[i] == ':' && (buf == "http" || buf == "https")
    ensures WellFormedUrl(buf + s[i..UrlEnd(s, i)])
  {
    var j := UrlEnd(s, i);
    var u := buf + s[i..j];
    assert u[..|buf| + 1] == buf + ":";
    forall k | 0 <= k < |u|
      ensures !IsWhiteSpace(u[k])
    {
      if k >= |buf| {
        assert u[k] == s[i + k - |buf|];
      }
    }
  }

  /** Every scan ends in its only Terminate, and every symbol it emits is well-formed. */
  lemma {:induction false} ScanWellFormed(s: string, i: nat, buf: string)
    requires i <= |s|
    requires forall k :: 0 <= k < |buf| ==> IsWordChar(buf[k])
    ensures WellFormedSymbols(Scan(s, i, buf))
    decreases |s| - i
  {
    if i == |s| {
      if |buf| > 0 {
        FlushedWord(buf);
      }
    } else {
      var ch := s[i];
      if !IsWordChar(ch) && |buf| > 0 && ch == ':' && (buf == "http" || buf == "https") {
        var j := UrlEnd(s, i);
        var next := if j < |s| then j + 1 else j;
        ScanWellFormed(s, next, []);
        UrlWellFormed(s, i, buf);
        PrependWellFormed([Url(buf + s[i..j])], Scan(s, next, []));
      } else if IsWordChar(ch) {
        forall k | 0 <= k < |buf + [ch]|
          ensures IsWordChar((buf + [ch])[k])
        {
          if k < |buf| {
            assert (buf + [ch])[k] == buf[k];
          }
        }
        ScanWellFormed(s, i + 1, buf + [ch]);
      } else {
        ScanWellFormed(s, i + 1, []);
        FlushWellFormed(s, i, buf);
      }
    }
  }

  /** A character that is neither a word character nor the ':' of a URL flushes the word and maybe emits a mark. */
  lemma FlushWellFormed(s: string, i: nat, buf: string)
    requires i < |s| && !IsWordChar(s[i]) && !(|buf| > 0 && s[i] == ':' && (buf == "http" || buf == "https"))
    requires forall k :: 0 <= k < |buf| ==> IsWordChar(buf[k])
    requires WellFormedSymbols(Scan(s, i + 1, []))
    ensures WellFormedSymbols(Scan(s, i, buf))
  {
    var ch := s[i];
    var flushed := if |buf| > 0 then [Word(Upper(buf))] else [];
    if |flushed| > 0 {
      FlushedWord(buf);
    }
    if IsPunctuationChar(ch) {
      PrependWellFormed(flushed + [PunctuationOf(ch)], Scan(s, i + 1, []));
    } else {
      PrependWellFormed(flushed, Scan(s, i + 1, []));
    }
  }

  /** Parse on a null string yields nothing; on any other string, a well-formed result. */
  lemma TokenizeWellFormed(input: Option<string>)
    ensures input.None? ==> Tokenize(input) == []
    ensures input.Some? ==> WellFormedSymbols(Tokenize(input))
  {
    if input.Some? {
      ScanWellFormed(input.value, 0, []);
    }
  }

  /** The characters the parser keeps outside URLs: word characters and punctuation marks. */
  function Kept(s: string): (r: string)
    ensures |r| <= |s|
  {
    if |s| == 0 then ""
    else (if IsWordChar(s[0]) || IsPunctuationChar(s[0]) then [s[0]] else []) + Kept(s[1..])
  }

  /** The text a symbol stands for, Terminate standing for nothing. */
  function SymbolText(x: Symbol): string
  {
    match x
    case Word(w) => w
    case Url(u) => u
    case Punctuation(k) => if k < |PunctuationMarks| then [PunctuationMarks[k]] else ""
    case Terminate => ""
  }

  function Text(r: seq<Symbol>): string
  {
    if |r| == 0 then "" else SymbolText(r[0]) + Text(r[1..])
  }

  lemma {:induction false} TextConcat(a: seq<Symbol>, b: seq<Symbol>)
    ensures Text(a + b) == Text(a) + Text(b)
  {
    if |a| == 0 {
      assert a + b == b;
    } else {
      var ab := a + b;
      assert ab[0] == a[0];
      assert ab[1..] == a[1..] + b;
      TextConcat(a[1..], b);
      calc {
        Text(ab);
        SymbolText(a[0]) + Text(a[1..] + b);
        SymbolText(a[0]) + (Text(a[1..]) + Text(b));
        (SymbolText(a[0]) + Text(a[1..])) + Text(b);
      }
    }
  }

  predicate NoUrl(r: seq<Symbol>) {
    forall k :: 0 <= k < |r| ==> !r[k].Url?
  }

  lemma NoUrlInSuffix(p: seq<Symbol>, r: seq<Symbol>)
    requires NoUrl(p + r)
    ensures NoUrl(r)
  {
    forall k | 0 <= k < |r|
      ensures !r[k].Url?
    {
      assert r[k] == (p + r)[|p| + k];
    }
  }

  lemma KeptStep(s: string, i: nat)
    requires i < |s|
    ensures Kept(s[i..]) == (if IsWordChar(s[i]) || IsPunctuationChar(s[i]) then [s[i]] else []) + Kept(s[i + 1..])
  {
    assert s[i..][1..] == s[i + 1..];
  }

  lemma FlushedText(buf: string)
    ensures Text(if |buf| > 0 then [Word(Upper(buf))] else []) == Upper(buf)
  {
    if |buf| > 0 {
      assert Text([Word(Upper(buf))]) == Upper(buf) + Text([]);
    }
  }

  /** The word-character step of ScanText. */
  lemma ScanTextWordStep(s: string, i: nat, buf: string)
    requires i < |s| && IsWordChar(s[i])
    requires Text(Scan(s, i + 1, buf + [s[i]])) == Upper(buf + [s[i]]) + Upper(Kept(s[i + 1..]))
    ensures Text(Scan(s, i, buf)) == Upper(buf) + Upper(Kept(s[i..]))
  {
    var ch := s[i];
    assert Scan(s, i, buf) == Scan(s, i + 1, buf + [ch]);
    KeptStep(s, i);
    UpperConcat(buf, [ch]);
    UpperConcat([ch], Kept(s[i + 1..]));
  }

  /** The separator step of ScanText: a punctuation mark is kept, anything else dropped. */
  lemma ScanTextSeparatorStep(s: string, i: nat, buf: string)
    requires i < |s| && !IsWordChar(s[i])
    requires !(|buf| > 0 && s[i] == ':' && (buf == "http" || buf == "https"))
    requires Text(Scan(s, i + 1, [])) == Upper(Kept(s[i + 1..]))
    ensures Text(Scan(s, i, buf)) == Upper(buf) + Upper(Kept(s[i..]))
  {
    var ch := s[i];
    var flushed := if |buf| > 0 then [Word(Upper(buf))] else [];
    var rest := Scan(s, i + 1, []);
    KeptStep(s, i);
    FlushedText(buf);
    if IsPunctuationChar(ch) {
      var m := PunctuationOf(ch);
      assert Scan(s, i, buf) == flushed + ([m] + rest);
      TextConcat(flushed, [m] + rest);
      TextConcat([m], rest);
      assert Text([m]) == [ch] + Text([]);
      UpperConcat([ch], Kept(s[i + 1..]));
      assert Upper([ch]) == [ch];
    } else {
      assert Scan(s, i, buf) == flushed + rest;
      TextConcat(flushed, rest);
      assert Kept(s[i..]) == Kept(s[i + 1..]);
    }
  }

  /**
   * When no URL is recognised, the symbols spell out, in order and upper-cased,
   * exactly the word characters and punctuation marks of the input: every
   * punctuation mark yields one symbol and every other separator is dropped.
   */
  lemma {:induction false} ScanText(s: string, i: nat, buf: string)
    requires i <= |s|
    ensures NoUrl(Scan(s, i, buf)) ==> Text(Scan(s, i, buf)) == Upper(buf) + Upper(Kept(s[i..]))
    decreases |s| - i
  {
    if i == |s| {
      assert s[i..] == [];
      var flushed := if |buf| > 0 then [Word(Upper(buf))] else [];
      FlushedText(buf);
      TextConcat(flushed, [Terminate]);
      assert Text([Terminate]) == "" + Text([]);
    } else {
      var ch := s[i];
      if !IsWordChar(ch) && |buf| > 0 && ch == ':' && (buf == "http" || buf == "https") {
        assert Scan(s, i, buf)[0].Url?;
      } else if IsWordChar(ch) {
        ScanText(s, i + 1, buf + [ch]);
        if NoUrl(Scan(s, i, buf)) {
          ScanTextWordStep(s, i, buf);
        }
      } else {
        var flushed := if |buf| > 0 then [Word(Upper(buf))] else [];
        var emitted := if IsPunctuationChar(ch) then flushed + [PunctuationOf(ch)] else flushed;
        assert Scan(s, i, buf) == emitted + Scan(s, i + 1, []);
        if NoUrl(Scan(s, i, buf)) {
          NoUrlInSuffix(emitted, Scan(s, i + 1, []));
          ScanText(s, i + 1, []);
          assert Upper([]) == [];
          ScanTextSeparatorStep(s, i, buf);
        }
      }
    }
  }

  /** A URL-free parse of s spells out the upper-cased word characters and marks of s. */
  lemma TokenizeText(s: string)
    requires NoUrl(Tokenize(Some(s)))
    ensures Text(Tokenize(Some(s))) == Upper(Kept(s))
  {
    ScanText(s, 0, []);
    assert s[0..] == s;
  }

  // ---------------------------------------------------------------------------
  // Format
  // ---------------------------------------------------------------------------

  /** The index of the first Terminate, or the length when there is none. */
  function FirstTerminate(r: seq<Symbol>): (n: nat)
    ensures n <= |r|
    ensures n < |r| ==> r[n].Terminate?
    ensures forall k :: 0 <= k < n ==> !r[k].Terminate?
  {
    if |r| == 0 || r[0].Terminate? then 0 else 1 + FirstTerminate(r[1..])
  }

  /** A sentence begins at the first symbol and after every terminating punctuation mark. */
  predicate SentenceStart(p: seq<Symbol>, i: nat)
    requires i <= |p|
  {
    i == 0 || IsTerminatingPunctuation(p[i - 1])
  }

  /**
   * How one symbol is written: a URL verbatim, anything else lower-cased, with its
   * first character upper-cased at the start of a sentence (Substring(0, 1) of an
   * empty word throws).
   */
  function Piece(x: Symbol, begin: bool): Result<string>
    requires !x.Terminate?
  {
    if x.Url? then Success(x.url)
    else
      match ToString(x)
      case Failure(e) => Failure(e)
      case Success(t) =>
        var text := Lower(t);
        if !begin then Success(text)
        else if |text| == 0 then Failure(ArgumentOutOfRange)
        else Success(Upper(text[..1]) + text[1..])
  }

  /** The text for symbols without a Terminate: one space before each non-punctuation symbol once output exists. */
  function Render(p: seq<Symbol>): Result<string>
    requires forall k :: 0 <= k < |p| ==> !p[k].Terminate?
  {
    if |p| == 0 then Success("")
    else
      match Render(p[..|p| - 1])
      case Failure(e) => Failure(e)
      case Success(prev) =>
        var x := p[|p| - 1];
        match Piece(x, SentenceStart(p, |p| - 1))
        case Failure(e) => Failure(e)
        case Success(piece) => Success(prev + (if |prev| > 0 && !x.Punctuation? then " " else "") + piece)
  }

  /** What Format returns: the rendering of the symbols before the first Terminate. */
  function FormatSpec(symbols: seq<Symbol>): Result<string>
  {
    Render(symbols[..FirstTerminate(symbols)])
  }

  lemma RenderFailureStays(p: seq<Symbol>, i: nat, j: nat)
    requires i <= j <= |p|
    requires forall k :: 0 <= k < |p| ==> !p[k].Terminate?
    requires Render(p[..i]).Failure?
    ensures Render(p[..j]) == Render(p[..i])
    decreases j
  {
    if j > i {
      RenderFailureStays(p, i, j - 1);
      assert p[..j][..j - 1] == p[..j - 1];
    }
  }

  /** One step of Render along a prefix of p. */
  lemma RenderStep(p: seq<Symbol>, i: nat, prev: string)
    requires i < |p|
    requires forall k :: 0 <= k < |p| ==> !p[k].Terminate?
    requires Render(p[..i]) == Success(prev)
    ensures Piece(p[i], SentenceStart(p, i)).Failure? ==>
      Render(p[..i + 1]) == Failure(Piece(p[i], SentenceStart(p, i)).error)
    ensures Piece(p[i], SentenceStart(p, i)).Success? ==>
      Render(p[..i + 1]) == Success(prev + (if |prev| > 0 && !p[i].Punctuation? then " " else "") + Piece(p[i], SentenceStart(p, i)).value)
  {
    var q := p[..i + 1];
    assert q[..i] == p[..i];
    assert q[i] == p[i];
    assert SentenceStart(q, i) == SentenceStart(p, i);
  }

  /** StringParser.Format */
  method Format(symbols: seq<Symbol>) returns (r: Result<string>)
    ensures r == FormatSpec(symbols)
  {
    ghost var n := FirstTerminate(symbols);
    ghost var p := symbols[..n];
    assert forall k :: 0 <= k < |p| ==> !p[k].Terminate?;
    var sb := "";
    var beginSentence := true;
    var i := 0;
    while i < |symbols|
      invariant 0 <= i <= n
      invariant forall k :: 0 <= k < |p| ==> !p[k].Terminate?
      invariant Render(p[..i]) == Success(sb)
      invariant beginSentence == SentenceStart(symbols, i)
    {
      var sym := symbols[i];
      if sym.Terminate? {
        break;
      }
      assert p[i] == sym;
      assert SentenceStart(p, i) == beginSentence;
      RenderStep(p, i, sb);
      var piece: string;
      if sym.Url? {
        piece := sym.url;
      } else {
        var t := ToString(sym);
        if t.Failure? {
          RenderFailureStays(p, i + 1, n);
          assert p[..n] == p;
          return Failure(t.error);
        }
        piece := Lower(t.value);
        if beginSentence {
          if |piece| == 0 {
            RenderFailureStays(p, i + 1, n);
            assert p[..n] == p;
            return Failure(ArgumentOutOfRange);
          }
          piece := Upper(piece[..1]) + piece[1..];
        }
      }
      assert Piece(sym, beginSentence) == Success(piece);
      var space := if |sb| > 0 && !sym.Punctuation? then " " else "";
      sb := sb + space + piece;
      beginSentence := sym.Punctuation? && IsTerminating(sym.kind);
      i := i + 1;
    }
    assert p[..i] == p;
    r := Success(sb);
  }

  /** Nothing from the first Terminate on reaches the output. */
  lemma FormatStopsAtTerminate(p: seq<Symbol>, q: seq<Symbol>)
    requires forall k :: 0 <= k < |p| ==> !p[k].Terminate?
    ensures FormatSpec(p + [Terminate] + q) == FormatSpec(p)
  {
    var r := p + [Terminate] + q;
    assert r[|p|].Terminate?;
    assert FirstTerminate(r) == |p|;
    assert FirstTerminate(p) == |p|;
    assert r[..|p|] == p[..|p|];
  }

  lemma RenderSnoc(p: seq<Symbol>, x: Symbol, prev: string, piece: string)
    requires forall k :: 0 <= k < |p| ==> !p[k].Terminate?
    requires !x.Terminate?
    requires Render(p) == Success(prev)
    requires Piece(x, SentenceStart(p + [x], |p|)) == Success(piece)
    ensures Render(p + [x]) == Success(prev + (if |prev| > 0 && !x.Punctuation? then " " else "") + piece)
  {
    var q := p + [x];
    assert q[..|p|] == p;
    assert q[..|p| + 1] == q;
    RenderStep(q, |p|, prev);
  }

  /** A punctuation mark is appended without a space before it. */
  lemma RenderPunctuation(p: seq<Symbol>, kind: byte, prev: string)
    requires forall k :: 0 <= k < |p| ==> !p[k].Terminate?
    requires Render(p) == Success(prev)
    requires kind < |PunctuationMarks|
    ensures Render(p + [Punctuation(kind)]) == Success(prev + [PunctuationMarks[kind]])
  {
    var begin := SentenceStart(p + [Punctuation(kind)], |p|);
    PieceMark(kind, begin);
    RenderSnoc(p, Punctuation(kind), prev, [PunctuationMarks[kind]]);
    assert prev + "" == prev;
  }

  /** Case mapping leaves a punctuation mark as it is, so a mark is written as itself. */
  lemma PieceMark(kind: byte, begin: bool)
    requires kind < |PunctuationMarks|
    ensures Piece(Punctuation(kind), begin) == Success([PunctuationMarks[kind]])
  {
    var m := PunctuationMarks[kind];
    assert ToString(Punctuation(kind)) == Success([m]);
    assert ToLower(m) == m && ToUpper(m) == m;
    var text := Lower([m]);
    assert text == [m];
    assert Upper(text[..1]) + text[1..] == [m];
  }

  /** A URL is appended verbatim, after one space when output exists. */
  lemma RenderUrl(p: seq<Symbol>, url: string, prev: string)
    requires forall k :: 0 <= k < |p| ==> !p[k].Terminate?
    requires Render(p) == Success(prev)
    ensures Render(p + [Url(url)]) == Success(prev + (if |prev| > 0 then " " else "") + url)
  {
    RenderSnoc(p, Url(url), prev, url);
  }

  /** At the start of a sentence a word is appended with its first letter upper-cased, the rest lower-cased. */
  lemma RenderWordAtSentenceStart(p: seq<Symbol>, w: string, prev: string)
    requires forall k :: 0 <= k < |p| ==> !p[k].Terminate?
    requires Render(p) == Success(prev)
    requires |w| > 0 && SentenceStart(p + [Word(w)], |p|)
    ensures Render(p + [Word(w)]) == Success(prev + (if |prev| > 0 then " " else "") + ([ToUpper(ToLower(w[0]))] + Lower(w[1..])))
  {
    PieceWord(w, true);
    RenderSnoc(p, Word(w), prev, [ToUpper(ToLower(w[0]))] + Lower(w[1..]));
  }

  /** Inside a sentence a word is appended lower-cased, after one space when output exists. */
  lemma RenderWordInSentence(p: seq<Symbol>, w: string, prev: string)
    requires forall k :: 0 <= k < |p| ==> !p[k].Terminate?
    requires Render(p) == Success(prev)
    requires !SentenceStart(p + [Word(w)], |p|)
    ensures Render(p + [Word(w)]) == Success(prev + (if |prev| > 0 then " " else "") + Lower(w))
  {
    assert ToString(Word(w)) == Success(w);
    RenderSnoc(p, Word(w), prev, Lower(w));
  }

  lemma PieceWord(w: string, begin: bool)
    requires |w| > 0
    ensures begin ==> Piece(Word(w), begin) == Success([ToUpper(ToLower(w[0]))] + Lower(w[1..]))
    ensures !begin ==> Piece(Word(w), begin) == Success(Lower(w))
  {
    var text := Lower(w);
    assert text[1..] == Lower(w[1..]);
    assert Upper(text[..1]) == [ToUpper(ToLower(w[0]))];
  }
}
