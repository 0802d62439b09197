/**
 * The answer reveal of the trivia game: whether a reveal may be shown for a
 * hint number (CanReveal), and the answer with only some of its letters shown
 * (GetAnswerReveal). Each hint shows one more character, handed out to the
 * words of the answer in turn, and every character not shown is a '_'.
 */
module TriviaReveal {
  import opened Chars
  import opened Strings

  /** The number of letters and digits in s. */
  function CountAlnum(s: string): (n: nat)
    ensures n <= |s|
  {
    if s == [] then 0
    else CountAlnum(s[..|s| - 1]) + (if IsLetterOrDigit(s[|s| - 1]) then 1 else 0)
  }

  /** A reveal may be shown while the hint number is below half the letters and digits of the answer. */
  method CanReveal(showAnswerReveal: bool, answer: string, hint: int) returns (r: bool)
    ensures r <==> showAnswerReveal && hint < CountAlnum(answer) / 2
  {
    if !showAnswerReveal {
      return false;
    }
    var numAlpha := 0;
    var i := 0;
    while i < |answer|
      invariant 0 <= i <= |answer|
      invariant numAlpha == CountAlnum(answer[..i])
    {
      assert answer[..i + 1][..i] == answer[..i];
      if IsLetterOrDigit(answer[i]) {
        numAlpha := numAlpha + 1;
      }
      i := i + 1;
    }
    assert answer[..i] == answer;
    return hint < numAlpha / 2;
  }

  /** Fewer than two letters or digits allow no reveal at all; and a later hint never allows more. */
  lemma RevealWindow(showAnswerReveal: bool, answer: string, hint: int, later: int)
    requires hint <= later
    ensures (showAnswerReveal && later < CountAlnum(answer) / 2) ==>
      (showAnswerReveal && hint < CountAlnum(answer) / 2)
    ensures hint >= |answer| / 2 ==> !(hint < CountAlnum(answer) / 2)
  {
  }

  /** The sum of a sequence of counts. */
  function Sum(xs: seq<int>): int {
    if xs == [] then 0 else xs[0] + Sum(xs[1..])
  }

  /** The lengths of the words, in order. */
  function Lengths(words: seq<string>): (r: seq<int>)
    ensures |r| == |words| && forall i :: 0 <= i < |words| ==> r[i] == |words[i]|
  {
    seq(|words|, i requires 0 <= i < |words| => |words[i]|)
  }

  /** Adding one to one count adds one to the sum. */
  lemma {:induction false} SumIncrement(xs: seq<int>, k: int)
    requires 0 <= k < |xs|
    ensures Sum(xs[k := xs[k] + 1]) == Sum(xs) + 1
    decreases |xs|
  {
    var ys := xs[k := xs[k] + 1];
    if k > 0 {
      assert ys[1..] == xs[1..][k - 1 := xs[k] + 1];
      SumIncrement(xs[1..], k - 1);
    } else {
      assert ys[1..] == xs[1..];
    }
  }

  /** Counts bounded one by one have a bounded sum. */
  lemma {:induction false} SumBounded(xs: seq<int>, ys: seq<int>)
    requires |xs| == |ys|
    requires forall i :: 0 <= i < |xs| ==> xs[i] <= ys[i]
    ensures Sum(xs) <= Sum(ys)
    decreases |xs|
  {
    if xs != [] {
      SumBounded(xs[1..], ys[1..]);
    }
  }

  /** The count of characters of s that are not spaces. */
  function NonSpace(s: string): (n: nat)
    ensures n <= |s|
  {
    if s == [] then 0 else (if s[0] == ' ' then 0 else 1) + NonSpace(s[1..])
  }

  lemma {:induction false} NonSpaceConcat(a: string, b: string)
    ensures NonSpace(a + b) == NonSpace(a) + NonSpace(b)
    decreases |a|
  {
    if a != [] {
      assert (a + b)[0] == a[0];
      assert (a + b)[1..] == a[1..] + b;
      NonSpaceConcat(a[1..], b);
    } else {
      assert a + b == b;
    }
  }

  lemma {:induction false} NonSpaceFree(a: string)
    requires ' ' !in a
    ensures NonSpace(a) == |a|
    decreases |a|
  {
    if a != [] {
      assert a[0] in a;
      assert forall c :: c in a[1..] ==> c in a;
      NonSpaceFree(a[1..]);
    }
  }

  lemma LengthsCons(w: string, ws: seq<string>)
    ensures Sum(Lengths([w] + ws)) == |w| + Sum(Lengths(ws))
  {
    assert Lengths([w] + ws)[1..] == Lengths(ws);
  }

  /** A space at k splits the non-space count of s in two. */
  lemma NonSpaceAtSpace(s: string, k: nat)
    requires k < |s| && s[k] == ' '
    ensures NonSpace(s) == NonSpace(s[..k]) + NonSpace(s[k + 1..])
  {
    assert s == s[..k] + ([' '] + s[k + 1..]);
    NonSpaceConcat(s[..k], [' '] + s[k + 1..]);
    assert ([' '] + s[k + 1..])[1..] == s[k + 1..];
  }

  /** The words of s, split at each space, hold all its non-space characters. */
  lemma {:induction false} SplitLengths(s: string)
    ensures Sum(Lengths(Split(s, ' '))) == NonSpace(s)
    decreases |s|
  {
    var k := IndexOf(s, ' ');
    if k < 0 {
      assert Split(s, ' ') == [s];
      NonSpaceFree(s);
      LengthsCons(s, []);
    } else {
      assert Split(s, ' ') == [s[..k]] + Split(s[k + 1..], ' ');
      LengthsCons(s[..k], Split(s[k + 1..], ' '));
      SplitLengths(s[k + 1..]);
      assert ' ' !in s[..k];
      NonSpaceFree(s[..k]);
      NonSpaceAtSpace(s, k);
    }
  }

  /** A word with its first r characters shown and the others replaced by '_'. */
  function Mask(w: string, r: int): (m: string)
    ensures |m| == |w|
    ensures forall k :: 0 <= k < |w| ==> m[k] == (if k < r then w[k] else '_')
  {
    seq(|w|, k requires 0 <= k < |w| => if k < r then w[k] else '_')
  }

  /** Every word masked by its own count. */
  function Masked(words: seq<string>, shown: seq<int>): (r: seq<string>)
    requires |shown| == |words|
    ensures |r| == |words| && forall i :: 0 <= i < |words| ==> r[i] == Mask(words[i], shown[i])
  {
    seq(|words|, i requires 0 <= i < |words| => Mask(words[i], shown[i]))
  }

  /** The words joined with a space after each, as the string builder collects them. */
  function Trailing(xs: seq<string>): string {
    if xs == [] then "" else Trailing(xs[..|xs| - 1]) + xs[|xs| - 1] + [' ']
  }

  lemma {:induction false} TrailingJoin(xs: seq<string>)
    requires |xs| >= 1
    ensures Trailing(xs) == Join(xs, ' ') + [' ']
    decreases |xs|
  {
    if |xs| == 1 {
      assert xs[..0] == [];
    } else {
      var init := xs[..|xs| - 1];
      TrailingJoin(init);
      JoinSnoc(init, xs[|xs| - 1], ' ');
      assert init + [xs[|xs| - 1]] == xs;
    }
  }

  /**
   * m is text with some of its characters hidden: the same length, spaces
   * exactly where text has them, and every other character kept or '_'.
   */
  predicate HidesLetters(m: string, text: string) {
    |m| == |text|
    && (forall k :: 0 <= k < |text| ==> (m[k] == ' ' <==> text[k] == ' '))
    && (forall k :: 0 <= k < |text| ==> m[k] == text[k] || m[k] == '_')
  }

  /**
   * Masking keeps the shape of the joined words: the same length, spaces exactly
   * where they were, and every other character kept or replaced by '_'.
   */
  lemma {:induction false} MaskedShape(words: seq<string>, shown: seq<int>)
    requires |words| >= 1 && |shown| == |words|
    requires forall i :: 0 <= i < |words| ==> ' ' !in words[i]
    ensures HidesLetters(Join(Masked(words, shown), ' '), Join(words, ' '))
    decreases |words|
  {
    var masked := Masked(words, shown);
    var w := words[0];
    var mw := masked[0];
    assert ' ' !in w;
    if |words| == 1 {
      assert Join(words, ' ') == w;
      assert Join(masked, ' ') == mw;
    } else {
      MaskedShape(words[1..], shown[1..]);
      assert Masked(words[1..], shown[1..]) == masked[1..];
      JoinCons(w, words[1..], ' ');
      JoinCons(mw, masked[1..], ' ');
      assert [w] + words[1..] == words;
      assert [mw] + masked[1..] == masked;
      var jr := Join(words[1..], ' ');
      var mr := Join(masked[1..], ' ');
      var j := Join(words, ' ');
      var m := Join(masked, ' ');
      assert j == w + [' '] + jr;
      assert m == mw + [' '] + mr;
      forall k | 0 <= k < |j|
        ensures (m[k] == ' ' <==> j[k] == ' ') && (m[k] == j[k] || m[k] == '_')
      {
        if k < |w| {
          assert j[k] == w[k] && m[k] == mw[k];
          assert w[k] in w;
        } else if k > |w| {
          assert j[k] == jr[k - |w| - 1] && m[k] == mr[k - |w| - 1];
        }
      }
    }
  }

  /** The word t places before word c, going round the n words. */
  function Back(c: int, t: int, n: int): (k: int)
    requires 0 <= c < n && 0 <= t <= n
    ensures 0 <= k < n || (t == n && k == c)
  {
    if t <= c then c - t else c - t + n
  }

  /**
   * The counts of shown characters: hint - 1 characters handed out to the
   * words in turn, one at a time, skipping words already fully shown, until
   * none are left to hand out or every word is fully shown. Going round in
   * turn means every word has had round chances, and the words before cut
   * one more, each word showing as many characters as its chances allow.
   */
  method RevealCounts(words: seq<string>, hint: int) returns (shown: array<int>, ghost round: nat, ghost cut: nat)
    requires |words| >= 1
    ensures fresh(shown) && shown.Length == |words|
    ensures forall i :: 0 <= i < |words| ==> 0 <= shown[i] <= |words[i]|
    ensures Sum(shown[..]) == Shown(hint, Sum(Lengths(words)))
    ensures cut < |words|
    ensures forall i :: 0 <= i < |words| ==> shown[i] == Min(|words[i]|, round + (if i < cut then 1 else 0))
  {
    var n := |words|;
    shown := new int[n](i => 0);
    assert Sum(shown[..]) == 0 by {
      ZeroSum(shown[..]);
    }
    var howMany := hint - 1;
    var curWord := 0;
    var noFind := 0;
    round := 0;
    while howMany > 0
      invariant shown.Length == n
      invariant 0 <= curWord < n && 0 <= noFind <= n
      invariant forall i :: 0 <= i < n ==> shown[i] == Min(|words[i]|, round + (if i < curWord then 1 else 0))
      invariant forall i :: 0 <= i < n ==> 0 <= shown[i] <= |words[i]|
      invariant 0 <= Sum(shown[..]) && Sum(shown[..]) + howMany == hint - 1
      invariant hint - 1 > 0 ==> howMany >= 0
      invariant hint - 1 <= 0 ==> Sum(shown[..]) == 0
      invariant forall t :: 1 <= t <= noFind ==> shown[Back(curWord, t, n)] == |words[Back(curWord, t, n)]|
      decreases howMany, n + 1 - noFind
    {
      if shown[curWord] < |words[curWord]| {
        SumIncrement(shown[..], curWord);
        shown[curWord] := shown[curWord] + 1;
        howMany := howMany - 1;
        noFind := 0;
      } else {
        noFind := noFind + 1;
      }
      if noFind > n {
        forall k | 0 <= k < n
          ensures shown[k] == |words[k]|
        {
          var t := if curWord >= k then curWord - k else curWord - k + n;
          assert Back(curWord, t, n) == k;
        }
        assert shown[..] == Lengths(words);
        break;
      }
      var next := if curWord + 1 == n then 0 else curWord + 1;
      forall t | 1 <= t <= noFind
        ensures shown[Back(next, t, n)] == |words[Back(next, t, n)]|
      {
        assert Back(next, t, n) == if t == 1 then curWord else Back(curWord, t - 1, n);
      }
      if next == 0 {
        round := round + 1;
      }
      curWord := next;
    }
    cut := curWord;
    SumBounded(shown[..], Lengths(words));
  }

  lemma {:induction false} ZeroSum(xs: seq<int>)
    requires forall i :: 0 <= i < |xs| ==> xs[i] == 0
    ensures Sum(xs) == 0
    decreases |xs|
  {
    if xs != [] {
      ZeroSum(xs[1..]);
    }
  }

  function Min(a: int, b: int): int {
    if a <= b then a else b
  }

  /** The number of characters hint shows of an answer with the given count of letters. */
  function Shown(hint: int, letters: int): int {
    if hint - 1 <= 0 then 0 else Min(hint - 1, letters)
  }

  /** The characters of one word as the string builder receives them. */
  method MaskWord(w: string, count: int) returns (m: string)
    ensures m == Mask(w, count)
  {
    m := "";
    var j := 0;
    while j < |w|
      invariant 0 <= j <= |w|
      invariant m == Mask(w, count)[..j]
    {
      assert Mask(w, count)[..j + 1] == Mask(w, count)[..j] + [Mask(w, count)[j]];
      if j < count {
        m := m + [w[j]];
      } else {
        m := m + ['_'];
      }
      j := j + 1;
    }
  }

  /** Every masked word followed by a space, less the last space. */
  method Render(words: seq<string>, counts: seq<int>) returns (r: string)
    requires |words| >= 1 && |counts| == |words|
    ensures r == Join(Masked(words, counts), ' ')
  {
    var masked := Masked(words, counts);
    var sb := "";
    var i := 0;
    while i < |words|
      invariant 0 <= i <= |words|
      invariant sb == Trailing(masked[..i])
    {
      var m := MaskWord(words[i], counts[i]);
      assert masked[..i + 1][..i] == masked[..i];
      sb := sb + m + [' '];
      i := i + 1;
    }
    assert masked[..i] == masked;
    TrailingJoin(masked);
    r := sb[..|sb| - 1];
  }

  /**
   * What a hint shows of an answer: its trimmed words, each masked by its
   * count of shown characters, where the counts come from handing hint - 1
   * characters (or all of them, when there are fewer) to the words in turn.
   */
  ghost predicate IsReveal(answer: string, hint: int, r: string, shown: seq<int>, round: nat, cut: nat) {
    var words := Split(Trim(answer), ' ');
    |shown| == |words| && cut < |words|
    && (forall i :: 0 <= i < |words| ==> shown[i] == Min(|words[i]|, round + (if i < cut then 1 else 0)))
    && r == Join(Masked(words, shown), ' ')
    && HidesLetters(r, Trim(answer))
    && Sum(shown) == Shown(hint, NonSpace(Trim(answer)))
  }

  /**
   * GetAnswerReveal: the trimmed answer with, in each word, the first shown[i]
   * characters shown and the rest replaced by '_'. The result hides letters of
   * the trimmed answer and nothing else, and shows min(hint - 1, letters)
   * characters in all (none below hint 2), where the letters are the non-space
   * characters of the trimmed answer.
   */
  method GetAnswerReveal(answer: string, hint: int) returns (r: string, ghost shown: seq<int>, ghost round: nat, ghost cut: nat)
    ensures |shown| == |Split(Trim(answer), ' ')|
    ensures cut < |shown|
    ensures forall i :: 0 <= i < |shown| ==> shown[i] == Min(|Split(Trim(answer), ' ')[i]|, round + (if i < cut then 1 else 0))
    ensures forall i :: 0 <= i < |shown| ==> 0 <= shown[i] <= |Split(Trim(answer), ' ')[i]|
    ensures r == Join(Masked(Split(Trim(answer), ' '), shown), ' ')
    ensures HidesLetters(r, Trim(answer))
    ensures Sum(shown) == Shown(hint, NonSpace(Trim(answer)))
    ensures IsReveal(answer, hint, r, shown, round, cut)
  {
    var trimmed := Trim(answer);
    var words := Split(trimmed, ' ');
    var counts;
    counts, round, cut := RevealCounts(words, hint);
    shown := counts[..];
    r := Render(words, counts[..]);
    JoinSplit(trimmed, ' ');
    MaskedShape(words, shown);
    SplitLengths(trimmed);
  }
}
