/**
 * HashSetOfStringTypeConverter: how a set of strings (a user's permissions)
 * is read from and written to configuration text, as its elements joined
 * with commas.
 */
module HashSetConverter {
  import opened Strings

  /** The types a conversion is asked about: string, or anything else. */
  datatype ConversionType = StringType | OtherType(name: string)

  /** CanConvertFrom: always from string; any other type is the base converter's answer. */
  function CanConvertFrom(sourceType: ConversionType, baseAnswer: bool): (r: bool)
    ensures sourceType == StringType ==> r
    ensures sourceType != StringType ==> r == baseAnswer
  {
    if sourceType == StringType then true else baseAnswer
  }

  /** CanConvertTo: always to string; any other type is the base converter's answer. */
  function CanConvertTo(destinationType: ConversionType, baseAnswer: bool): (r: bool)
    ensures destinationType == StringType ==> r
    ensures destinationType != StringType ==> r == baseAnswer
  {
    if destinationType == StringType then true else baseAnswer
  }

  /** ConvertFrom a string: the set of its comma-separated pieces, empty pieces included. */
  function ConvertFrom(s: string): (r: set<string>)
    ensures r != {}
    ensures forall x :: x in r ==> ',' !in x
  {
    var pieces := Split(s, ',');
    var r := set x | x in pieces;
    assert pieces[0] in r;
    r
  }

  /**
   * ConvertTo a string: the elements joined with ','. The elements come in
   * the set's enumeration order, which the hash table decides.
   */
  function ConvertTo(elements: seq<string>): string {
    Join(elements, ',')
  }

  /** Writing a non-empty set of comma-free strings and reading it back gives the same set. */
  lemma SetRoundTrip(elements: seq<string>)
    requires |elements| >= 1
    requires forall i :: 0 <= i < |elements| ==> ',' !in elements[i]
    ensures ConvertFrom(ConvertTo(elements)) == set x | x in elements
  {
    SplitJoin(elements, ',');
  }

  /** The empty set is written as "" and comes back as the set holding "". */
  lemma EmptySetComesBackNonEmpty()
    ensures ConvertTo([]) == "" && ConvertFrom(ConvertTo([])) == {""}
  {
    assert Split("", ',') == [""];
  }

  /** Writing the pieces of a text in their order gives the text back. */
  lemma TextRoundTrip(s: string)
    ensures ConvertTo(Split(s, ',')) == s
    ensures ConvertFrom(s) == set x | x in Split(s, ',')
  {
    JoinSplit(s, ',');
  }
}
