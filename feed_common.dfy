// What the two feed parsers share: the library calls they make, and the loop of
// `parseDate` over an ordered list of date patterns.

module FeedCommon {
  import opened JavaLang

  /**
   * Calls into libraries that are not part of this model, passed in as values:
   * `htmlText(s)` is `Jsoup.parse(s).text()`, and `parseWith(pattern, s)` is
   * `SimpleDateFormat(pattern, Locale.ENGLISH).parse(s).time`, `None` where that
   * throws a ParseException.
   */
  datatype Foreign = Foreign(htmlText: string -> string, parseWith: (string, string) -> Option<Int64>)

  /** The value of the first pattern that parses `s`, else the sentinel `none`. */
  function FirstParse(f: Foreign, formats: seq<string>, s: string, none: Int64): Int64 {
    if formats == [] then none
    else match f.parseWith(formats[0], s)
      case Some(t) => t
      case None => FirstParse(f, formats[1..], s, none)
  }

  /** Pattern `i` parses `s`, and no earlier pattern does. */
  predicate FirstSuccess(f: Foreign, formats: seq<string>, s: string, i: int) {
    0 <= i < |formats| && f.parseWith(formats[i], s).Some?
    && forall j | 0 <= j < i :: f.parseWith(formats[j], s).None?
  }

  /**
   * `FirstParse` is the value of the first pattern, in list order, that parses the
   * string, and the sentinel exactly when none does (not counting a pattern whose
   * value happens to equal the sentinel).
   */
  lemma {:induction false} FirstParseIsFirst(f: Foreign, formats: seq<string>, s: string, none: Int64)
    ensures (forall i | 0 <= i < |formats| :: f.parseWith(formats[i], s).None?) ==> FirstParse(f, formats, s, none) == none
    ensures forall i | FirstSuccess(f, formats, s, i) :: FirstParse(f, formats, s, none) == f.parseWith(formats[i], s).value
    decreases |formats|
  {
    if formats != [] {
      var tail := formats[1..];
      FirstParseIsFirst(f, tail, s, none);
      forall i | FirstSuccess(f, formats, s, i) && i > 0
        ensures FirstSuccess(f, tail, s, i - 1)
      {
        forall j | 0 <= j < i - 1
          ensures f.parseWith(tail[j], s).None?
        {
          assert tail[j] == formats[j + 1];
        }
      }
      if forall i | 0 <= i < |formats| :: f.parseWith(formats[i], s).None? {
        forall i | 0 <= i < |tail|
          ensures f.parseWith(tail[i], s).None?
        {
          assert tail[i] == formats[i + 1];
        }
      }
    }
  }

  /**
   * `parseDate`: each pattern in turn, returning the first successful parse; a
   * ParseException only moves on to the next pattern, and `none` is returned when
   * every pattern fails.
   */
  method ParseDate(f: Foreign, formats: seq<string>, s: string, none: Int64) returns (r: Int64)
    ensures r == FirstParse(f, formats, s, none)
    ensures (forall i | 0 <= i < |formats| :: f.parseWith(formats[i], s).None?) ==> r == none
    ensures forall i | FirstSuccess(f, formats, s, i) :: r == f.parseWith(formats[i], s).value
  {
    FirstParseIsFirst(f, formats, s, none);
    for i := 0 to |formats|
      invariant FirstParse(f, formats[i..], s, none) == FirstParse(f, formats, s, none)
    {
      assert formats[i..][0] == formats[i];
      assert formats[i..][1..] == formats[i + 1..];
      match f.parseWith(formats[i], s) {
        case Some(t) =>
          return t;
        case None =>
      }
    }
    assert formats[|formats|..] == [];
    return none;
  }
}
