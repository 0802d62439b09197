/** The chatter engine's symbols: a closed variant with a one-byte-tag binary codec. */
module Symbols {
  import opened Wrappers
  import opened Chars
  import opened BinaryFormat

  /** SymbolType: the tag byte written before each symbol. */
  const PunctuationTag: byte := 0
  const WordTag: byte := 1
  const TerminateTag: byte := 2
  const UrlTag: byte := 3

  /** PunctuationType values; the enum is a byte, so a loaded kind may be any byte. */
  const Period: byte := 0
  const Comma: byte := 1
  const SemiColon: byte := 2
  const Colon: byte := 3
  const ExclamationMark: byte := 4
  const QuestionMark: byte := 5

  /** The punctuation marks, indexed by PunctuationType. */
  const PunctuationMarks: string := ".,;:!?"

  /** The characters besides letters and digits that may occur inside a word. */
  const WordChars: string := "-_$#@'+=*&/"

  datatype Symbol =
    | Punctuation(kind: byte)
    | Word(word: string)
    | Terminate
    | Url(url: string)

  /** PunctuationSymbol.IsTerminating: the marks that end a sentence. */
  predicate IsTerminating(kind: byte) {
    kind == ExclamationMark || kind == Period || kind == QuestionMark
  }

  /** A symbol that is a sentence-ending punctuation mark. */
  predicate IsTerminatingPunctuation(s: Symbol) {
    s.Punctuation? && IsTerminating(s.kind)
  }

  /** PunctuationSymbol.IsPunctuationChar */
  predicate IsPunctuationChar(ch: char) {
    ch in PunctuationMarks
  }

  /** WordSymbol.IsWordChar */
  predicate IsWordChar(ch: char) {
    IsLetterOrDigit(ch) || ch in WordChars
  }

  /**
   * new PunctuationSymbol(ch): the kind is the index of ch among the marks; for
   * any other character IndexOf gives -1, which the byte enum holds as 255.
   */
  function PunctuationOf(ch: char): (s: Symbol)
    ensures s.Punctuation?
    ensures IsPunctuationChar(ch) <==> s.kind < |PunctuationMarks|
    ensures IsPunctuationChar(ch) ==> PunctuationMarks[s.kind] == ch
  {
    if ch == '.' then Punctuation(Period)
    else if ch == ',' then Punctuation(Comma)
    else if ch == ';' then Punctuation(SemiColon)
    else if ch == ':' then Punctuation(Colon)
    else if ch == '!' then Punctuation(ExclamationMark)
    else if ch == '?' then Punctuation(QuestionMark)
    else Punctuation(255)
  }

  /**
   * Symbol.ToString. A punctuation kind outside the six marks indexes past the
   * mark string; a TerminateSymbol does not override object.ToString.
   */
  function ToString(s: Symbol): (r: Result<string>)
    ensures s.Punctuation? ==> (r.Success? <==> s.kind < |PunctuationMarks|)
    ensures r.Success? && s.Punctuation? ==> r.value == [PunctuationMarks[s.kind]]
    ensures s.Word? ==> r == Success(s.word)
    ensures s.Url? ==> r == Success(s.url)
  {
    match s
    case Punctuation(k) =>
      if k < |PunctuationMarks| then Success([PunctuationMarks[k]]) else Failure(IndexOutOfRange)
    case Word(w) => Success(w)
    case Url(u) => Success(u)
    case Terminate => Success("Brigand.MarkovModel.TerminateSymbol")
  }

  /** The four Equals overrides: same variant and equal payload; all terminators are equal. */
  predicate Equals(a: Symbol, b: Symbol) {
    match a
    case Punctuation(k) => b.Punctuation? && b.kind == k
    case Word(w) => b.Word? && b.word == w
    case Url(u) => b.Url? && b.url == u
    case Terminate => b.Terminate?
  }

  /** Symbol.Save */
  function Save(s: Symbol): (r: seq<byte>)
    ensures |r| >= 1
    ensures r[0] == (match s
                     case Punctuation(_) => PunctuationTag
                     case Word(_) => WordTag
                     case Terminate => TerminateTag
                     case Url(_) => UrlTag)
    ensures s.Terminate? ==> r == [TerminateTag]
    ensures s.Punctuation? ==> r == [PunctuationTag, s.kind]
  {
    match s
    case Punctuation(k) => [PunctuationTag, k]
    case Word(w) => [WordTag] + WriteString(w)
    case Terminate => [TerminateTag]
    case Url(u) => [UrlTag] + WriteString(u)
  }

  /** Symbol.Load: read the tag byte, then the payload it announces. */
  function Load(data: seq<byte>): (r: Result<(Symbol, seq<byte>)>)
    ensures |data| >= 1 && data[0] > UrlTag ==> r == Failure(InvalidOperation)
    ensures |data| == 0 ==> r == Failure(EndOfStream)
    ensures r.Success? ==> |r.value.1| < |data|
  {
    match ReadByte(data)
    case Failure(e) => Failure(e)
    case Success((tag, rest)) =>
      if tag == PunctuationTag then
        match ReadByte(rest)
        case Failure(e) => Failure(e)
        case Success((k, rest')) => Success((Punctuation(k), rest'))
      else if tag == WordTag then
        match ReadString(rest)
        case Failure(e) => Failure(e)
        case Success((w, rest')) => Success((Word(w), rest'))
      else if tag == TerminateTag then
        Success((Terminate, rest))
      else if tag == UrlTag then
        match ReadString(rest)
        case Failure(e) => Failure(e)
        case Success((u, rest')) => Success((Url(u), rest'))
      else
        Failure(InvalidOperation)
  }

  /** Loading what Save wrote gives back an equal symbol, for all four variants. */
  lemma SaveLoad(s: Symbol, rest: seq<byte>)
    ensures Load(Save(s) + rest) == Success((s, rest))
  {
    var data := Save(s) + rest;
    assert data[1..] == Save(s)[1..] + rest;
    match s
    case Punctuation(k) =>
      assert data[1..][1..] == rest;
    case Word(w) =>
      StringRoundTrip(w, rest);
    case Url(u) =>
      StringRoundTrip(u, rest);
    case Terminate =>
  }

  /** IsTerminating holds for exactly the period, exclamation and question marks. */
  lemma TerminatingMarks(ch: char)
    requires IsPunctuationChar(ch)
    ensures IsTerminating(PunctuationOf(ch).kind) <==> ch in ".!?"
  {
  }

  /** Each mark converts to a PunctuationSymbol whose ToString is that mark. */
  lemma PunctuationToString(ch: char)
    requires IsPunctuationChar(ch)
    ensures ToString(PunctuationOf(ch)) == Success([ch])
  {
  }

  /** Equality of symbols depends only on variant and payload. */
  lemma EqualsIsStructural(a: Symbol, b: Symbol)
    ensures Equals(a, b) <==> a == b
    ensures a.Terminate? && b.Terminate? ==> Equals(a, b)
  {
  }

  /** No character is both a word character and a punctuation mark. */
  lemma WordAndPunctuationDisjoint(ch: char)
    ensures !(IsWordChar(ch) && IsPunctuationChar(ch))
  {
  }
}
