/**
 * SymbolDictionary: the append-only table that interns symbols as ushort ids.
 * Both revisions of the chatter engine carry the same table.
 */
module SymbolTable {
  import opened Wrappers
  import opened BinaryFormat
  import opened Symbols

  /** The (ushort) cast of a count or an index. */
  function Truncate(n: nat): (r: ushort)
    ensures n < 0x1_0000 ==> r == n
  {
    n % 0x1_0000
  }

  predicate Distinct(store: seq<Symbol>) {
    forall i, j :: 0 <= i < j < |store| ==> store[i] != store[j]
  }

  /** The index of the first occurrence of s in store. */
  function FirstIndex(store: seq<Symbol>, s: Symbol): (i: nat)
    requires s in store
    ensures i < |store| && store[i] == s
    ensures forall j :: 0 <= j < i ==> store[j] != s
  {
    if store[0] == s then 0 else 1 + FirstIndex(store[1..], s)
  }

  /** The lookup table that belongs to a store: each symbol to the ushort index of its first occurrence. */
  function IdsOf(store: seq<Symbol>): (m: map<Symbol, ushort>)
    ensures forall s :: s in m <==> s in store
  {
    map s | s in store :: Truncate(FirstIndex(store, s))
  }

  /**
   * The lookup table Load builds: for i below n, store[i] is registered with
   * id i unless it is already known. The index runs over the whole store, not
   * over the symbols just read, exactly as the loop body indexes _store[i].
   */
  function LoadIds(lookup: map<Symbol, ushort>, store: seq<Symbol>, n: nat): map<Symbol, ushort>
    requires n <= |store| && n <= 0x1_0000
  {
    if n == 0 then lookup
    else
      var m := LoadIds(lookup, store, n - 1);
      if store[n - 1] in m then m else m[store[n - 1] := n - 1]
  }

  /** Symbol.Save of each symbol, one after the other. */
  function SaveAll(store: seq<Symbol>): seq<byte>
  {
    if |store| == 0 then [] else Save(store[0]) + SaveAll(store[1..])
  }

  /** n successive Symbol.Load calls. */
  function ReadSymbols(data: seq<byte>, n: nat): (r: Result<(seq<Symbol>, seq<byte>)>)
    ensures r.Success? ==> |r.value.0| == n
    decreases n
  {
    if n == 0 then Success(([], data))
    else
      match Load(data)
      case Failure(e) => Failure(e)
      case Success((s, rest)) =>
        match ReadSymbols(rest, n - 1)
        case Failure(e) => Failure(e)
        case Success((more, rest')) => Success(([s] + more, rest'))
  }

  /** The bytes SymbolDictionary.Save writes: the count cast to ushort, then every symbol. */
  function SaveBytes(store: seq<Symbol>): seq<byte>
  {
    WriteUInt16(Truncate(|store|)) + SaveAll(store)
  }

  /** What SymbolDictionary.Load reads: the ushort count, then that many symbols. */
  function Decode(data: seq<byte>): Result<(seq<Symbol>, seq<byte>)>
  {
    match ReadUInt16(data)
    case Failure(e) => Failure(e)
    case Success((count, rest)) => ReadSymbols(rest, count)
  }

  class SymbolDictionary {
    var store: seq<Symbol>
    var lookup: map<Symbol, ushort>

    /** The lookup table is the one that belongs to the store. */
    ghost predicate Valid()
      reads this
    {
      lookup == IdsOf(store)
    }

    constructor()
      ensures Valid() && store == [] && lookup == map[]
    {
      store := [];
      lookup := map[];
    }

    /** SymbolDictionary.AddSymbol */
    method AddSymbol(s: Symbol) returns (id: ushort)
      requires Valid()
      modifies this
      ensures Valid()
      ensures s in old(store) ==> store == old(store) && lookup == old(lookup) && id == old(lookup)[s]
      ensures s !in old(store) ==> store == old(store) + [s] && id == Truncate(|old(store)|)
      ensures lookup[s] == id && id < |store|
      ensures forall x :: x in old(lookup) ==> x in lookup && lookup[x] == old(lookup)[x]
      ensures |store| < 0x1_0000 ==> id < |store| && store[id] == s
      ensures Distinct(old(store)) ==> Distinct(store)
    {
      if s in lookup {
        id := lookup[s];
        IdsBelow(store, s);
        return;
      }
      IdsOfAppend(store, s);
      store := store + [s];
      id := Truncate(|store| - 1);
      lookup := lookup[s := id];
    }

    /** AddSymbol on each symbol in turn, collecting the ids. */
    method AddSymbols(symbols: seq<Symbol>) returns (tokens: seq<ushort>)
      requires Valid()
      modifies this
      ensures Valid()
      ensures old(store) <= store
      ensures forall j :: |old(store)| <= j < |store| ==> store[j] in symbols
      ensures |tokens| == |symbols|
      ensures forall i :: 0 <= i < |symbols| ==>
        symbols[i] in lookup && lookup[symbols[i]] == tokens[i] && tokens[i] < |store|
    {
      tokens := [];
      var i := 0;
      while i < |symbols|
        invariant 0 <= i <= |symbols| && |tokens| == i
        invariant Valid()
        invariant old(store) <= store
        invariant forall j :: |old(store)| <= j < |store| ==> store[j] in symbols
        invariant forall k :: 0 <= k < i ==>
          symbols[k] in lookup && lookup[symbols[k]] == tokens[k] && tokens[k] < |store|
      {
        ghost var lookup0 := lookup;
        var id := AddSymbol(symbols[i]);
        ghost var tokens0 := tokens;
        tokens := tokens + [id];
        forall k | 0 <= k < i + 1
          ensures symbols[k] in lookup && lookup[symbols[k]] == tokens[k] && tokens[k] < |store|
        {
          if k < i {
            assert tokens[k] == tokens0[k];
            assert symbols[k] in lookup0 && lookup0[symbols[k]] == tokens0[k];
          }
        }
        i := i + 1;
      }
    }

    /** this[ushort token] */
    function SymbolAt(token: ushort): (r: Result<Symbol>)
      reads this
      ensures r.Success? <==> token < |store|
      ensures r.Success? ==> r.value == store[token]
    {
      if token < |store| then Success(store[token]) else Failure(ArgumentOutOfRange)
    }

    /** this[Symbol sym] */
    function IdOf(sym: Symbol): (r: Result<ushort>)
      reads this
      ensures r.Success? <==> sym in lookup
      ensures r.Success? ==> r.value == lookup[sym]
    {
      if sym in lookup then Success(lookup[sym]) else Failure(KeyNotFound)
    }

    /** SymbolDictionary.Count */
    function Count(): (n: nat)
      reads this
      ensures n == |store|
    {
      |store|
    }

    /** SymbolDictionary.Save */
    method Save() returns (bytes: seq<byte>)
      ensures bytes == SaveBytes(store)
    {
      bytes := WriteUInt16(Truncate(|store|));
      var i := 0;
      while i < |store|
        invariant 0 <= i <= |store|
        invariant bytes + SaveAll(store[i..]) == SaveBytes(store)
      {
        assert store[i..][1..] == store[i + 1..];
        bytes := bytes + Symbols.Save(store[i]);
        i := i + 1;
      }
      assert store[i..] == [];
    }

    /** SymbolDictionary.Load: appends the symbols read and registers them; returns the bytes after them. */
    method Load(data: seq<byte>) returns (r: Result<seq<byte>>)
      modifies this
      ensures r.Success? <==> Decode(data).Success?
      ensures old(store) <= store
      ensures r.Success? ==> store == old(store) + Decode(data).value.0 && r.value == Decode(data).value.1
      ensures r.Success? ==> lookup == LoadIds(old(lookup), store, |Decode(data).value.0|)
    {
      var header := ReadUInt16(data);
      if header.Failure? {
        return Failure(header.error);
      }
      var count := header.value.0;
      var rest := header.value.1;
      ghost var start := rest;
      ghost var before := store;
      var i := 0;
      assert store[|before|..] == [];
      while i < count
        invariant 0 <= i <= count
        invariant |store| == |before| + i
        invariant store[..|before|] == before
        invariant ReadSymbols(start, i) == Success((store[|before|..], rest))
        invariant lookup == LoadIds(old(lookup), store, i)
      {
        var next := Symbols.Load(rest);
        ReadSymbolsSnoc(start, i, store[|before|..], rest);
        if next.Failure? {
          ReadSymbolsFailure(start, i + 1, count);
          return Failure(next.error);
        }
        ghost var prev := store;
        store := store + [next.value.0];
        assert store[|before|..] == prev[|before|..] + [next.value.0];
        LoadIdsPrefix(old(lookup), prev, store, i);
        if store[i] !in lookup {
          lookup := lookup[store[i] := i];
        }
        rest := next.value.1;
        i := i + 1;
      }
      r := Success(rest);
    }
  }

  // ---------------------------------------------------------------------------
  // Lemmas
  // ---------------------------------------------------------------------------

  /** Every id handed out indexes the store. */
  lemma IdsBelow(store: seq<Symbol>, s: Symbol)
    requires s in store
    ensures IdsOf(store)[s] < |store|
  {
    var i := FirstIndex(store, s);
    assert Truncate(i) <= i by {
      if i >= 0x1_0000 {
        assert i % 0x1_0000 < 0x1_0000;
      }
    }
  }

  lemma FirstIndexAppend(store: seq<Symbol>, s: Symbol, t: Symbol)
    requires t in store
    ensures FirstIndex(store + [s], t) == FirstIndex(store, t)
  {
    var i := FirstIndex(store, t);
    var k := FirstIndex(store + [s], t);
    assert (store + [s])[i] == t;
  }

  /** Appending keeps the id of every symbol already in the store. */
  lemma IdsOfAppendKeeps(store: seq<Symbol>, s: Symbol)
    ensures forall t :: t in store ==> IdsOf(store + [s])[t] == IdsOf(store)[t]
  {
    forall t | t in store
      ensures IdsOf(store + [s])[t] == IdsOf(store)[t]
    {
      FirstIndexAppend(store, s, t);
    }
  }

  /** Appending a known symbol leaves the table as it was. */
  lemma IdsOfAppendKnown(store: seq<Symbol>, s: Symbol)
    requires s in store
    ensures IdsOf(store + [s]) == IdsOf(store)
  {
    var m := IdsOf(store + [s]);
    var o := IdsOf(store);
    IdsOfAppendKeeps(store, s);
    assert m.Keys == o.Keys;
  }

  /** Appending a new symbol gives it the next id. */
  lemma IdsOfAppendNew(store: seq<Symbol>, s: Symbol)
    requires s !in store
    ensures IdsOf(store + [s]) == IdsOf(store)[s := Truncate(|store|)]
  {
    var m := IdsOf(store + [s]);
    var o := IdsOf(store)[s := Truncate(|store|)];
    IdsOfAppendKeeps(store, s);
    assert m.Keys == o.Keys;
    forall t | t in m
      ensures m[t] == o[t]
    {
      if t == s {
        assert FirstIndex(store + [s], s) == |store|;
      }
    }
  }

  /** Appending a known symbol leaves the table as it was; a new one gets the next id. */
  lemma IdsOfAppend(store: seq<Symbol>, s: Symbol)
    ensures s in store ==> IdsOf(store + [s]) == IdsOf(store)
    ensures s !in store ==> IdsOf(store + [s]) == IdsOf(store)[s := Truncate(|store|)]
  {
    if s in store {
      IdsOfAppendKnown(store, s);
    } else {
      IdsOfAppendNew(store, s);
    }
  }

  /** In a store without duplicates, every entry's id is its index cast to ushort. */
  lemma IdsOfDistinct(store: seq<Symbol>)
    requires Distinct(store)
    ensures forall i :: 0 <= i < |store| ==> IdsOf(store)[store[i]] == Truncate(i)
  {
    forall i | 0 <= i < |store|
      ensures FirstIndex(store, store[i]) == i
    {
    }
  }

  /** Up to 65,536 distinct entries, ids and symbols are in one-to-one correspondence. */
  lemma IdsAreBijective(store: seq<Symbol>)
    requires Distinct(store) && |store| <= 0x1_0000
    ensures forall s :: s in store ==> IdsOf(store)[s] < |store| && store[IdsOf(store)[s]] == s
    ensures forall s, t :: s in store && t in store && IdsOf(store)[s] == IdsOf(store)[t] ==> s == t
  {
    IdsOfDistinct(store);
  }

  /** Past 65,536 entries the ushort cast makes two different symbols share an id. */
  lemma IdsAlias(store: seq<Symbol>)
    requires Distinct(store) && |store| > 0x1_0000
    ensures store[0] != store[0x1_0000]
    ensures IdsOf(store)[store[0]] == IdsOf(store)[store[0x1_0000]] == 0
  {
    IdsOfDistinct(store);
  }

  lemma LoadIdsPrefix(lookup: map<Symbol, ushort>, a: seq<Symbol>, b: seq<Symbol>, n: nat)
    requires n <= |a| && n <= |b| && n <= 0x1_0000
    requires a[..n] == b[..n]
    ensures LoadIds(lookup, a, n) == LoadIds(lookup, b, n)
  {
    if n > 0 {
      assert a[n - 1] == a[..n][n - 1];
      assert b[n - 1] == b[..n][n - 1];
      assert a[..n - 1] == a[..n][..n - 1];
      assert b[..n - 1] == b[..n][..n - 1];
      LoadIdsPrefix(lookup, a, b, n - 1);
    }
  }

  /**
   * Loading into an empty table registers each symbol with the index of its
   * first occurrence: the first id wins when a symbol appears twice.
   */
  lemma {:induction false} LoadIdsFresh(store: seq<Symbol>, n: nat)
    requires n <= |store| && n <= 0x1_0000
    ensures LoadIds(map[], store, n) == IdsOf(store[..n])
  {
    if n > 0 {
      LoadIdsFresh(store, n - 1);
      assert store[..n] == store[..n - 1] + [store[n - 1]];
      IdsOfAppend(store[..n - 1], store[n - 1]);
    }
  }

  lemma {:induction false} ReadSymbolsSnoc(data: seq<byte>, i: nat, xs: seq<Symbol>, mid: seq<byte>)
    requires ReadSymbols(data, i) == Success((xs, mid))
    ensures ReadSymbols(data, i + 1) ==
      match Load(mid)
      case Failure(e) => Failure(e)
      case Success((s, rest)) => Success((xs + [s], rest))
    decreases i
  {
    if i == 0 {
      assert xs == [] && mid == data;
      if Load(data).Success? {
        var (s, rest) := Load(data).value;
        assert ReadSymbols(rest, 0) == Success(([], rest));
        assert [s] + [] == xs + [s];
      }
    } else {
      var (first, after) := Load(data).value;
      var more := ReadSymbols(after, i - 1).value.0;
      assert ReadSymbols(after, i - 1) == Success((more, mid));
      assert xs == [first] + more;
      ReadSymbolsSnoc(after, i - 1, more, mid);
      if Load(mid).Success? {
        var (s, rest) := Load(mid).value;
        assert ReadSymbols(after, i) == Success((more + [s], rest));
        assert [first] + (more + [s]) == xs + [s];
      }
    }
  }

  lemma {:induction false} ReadSymbolsFailure(data: seq<byte>, i: nat, j: nat)
    requires i <= j
    requires ReadSymbols(data, i).Failure?
    ensures ReadSymbols(data, j).Failure?
    decreases i
  {
    if Load(data).Success? {
      ReadSymbolsFailure(Load(data).value.1, i - 1, j - 1);
    }
  }

  lemma {:induction false} ReadSaveAll(store: seq<Symbol>, rest: seq<byte>)
    ensures ReadSymbols(SaveAll(store) + rest, |store|) == Success((store, rest))
  {
    if |store| == 0 {
      assert SaveAll(store) + rest == rest;
    } else {
      var tail := SaveAll(store[1..]) + rest;
      Regroup2(Save(store[0]), SaveAll(store[1..]), rest);
      SaveLoad(store[0], tail);
      ReadSaveAll(store[1..], rest);
      assert ReadSymbols(tail, |store| - 1) == Success((store[1..], rest));
      assert [store[0]] + store[1..] == store;
    }
  }

  /** Load reads back exactly the store Save wrote, followed by whatever came after. */
  lemma SaveDecode(store: seq<Symbol>, rest: seq<byte>)
    requires |store| < 0x1_0000
    ensures Decode(SaveBytes(store) + rest) == Success((store, rest))
  {
    Regroup2(WriteUInt16(|store|), SaveAll(store), rest);
    UInt16RoundTrip(|store|, SaveAll(store) + rest);
    ReadSaveAll(store, rest);
  }

  /** With 65,536 entries the saved count wraps to 0, and Load reads back no symbols at all. */
  lemma SaveCountWraps(store: seq<Symbol>, rest: seq<byte>)
    requires |store| == 0x1_0000
    ensures Decode(SaveBytes(store) + rest) == Success(([], SaveAll(store) + rest))
  {
    assert Truncate(|store|) == 0;
    Regroup2(WriteUInt16(0), SaveAll(store), rest);
    UInt16RoundTrip(0, SaveAll(store) + rest);
  }

  /**
   * Saving a table and loading the bytes into an empty one reproduces the
   * store in order and, when the store has no duplicates, the same ids.
   */
  lemma SaveLoadRoundTrip(store: seq<Symbol>, rest: seq<byte>)
    requires |store| < 0x1_0000
    ensures Decode(SaveBytes(store) + rest) == Success((store, rest))
    ensures LoadIds(map[], [] + store, |store|) == IdsOf(store)
    ensures Distinct(store) ==> forall i :: 0 <= i < |store| ==> IdsOf(store)[store[i]] == i
  {
    SaveDecode(store, rest);
    assert [] + store == store && store[..|store|] == store;
    LoadIdsFresh(store, |store|);
    if Distinct(store) {
      IdsOfDistinct(store);
    }
  }
}
