/**
 * The search functions over the rank-grouped mapping. Every one of them scans
 * the groups in key order; the list-returning ones keep every match, `get_by_id`
 * and `get_by_fice` return the first match or `{}` (here `None`), and
 * `get_by_rank` looks one key up.
 */
module Queries {
  import opened Wrappers
  import opened Records
  import opened Text
  import opened Search
  import opened Collector
  import opened Grouping

  /** `get_by_state`: the query is upper-cased, the stored state is compared as it is. */
  method GetByState(colleges: Colleges, state: string) returns (ret: seq<College>)
    ensures ret == Select(Flatten(colleges), StateIs(Upper(state)))
    ensures forall c :: c in ret <==> c in Flatten(colleges) && c.state == Upper(state)
    ensures |ret| <= |Flatten(colleges)|
  {
    ret := ScanAll(colleges, StateIs(Upper(state)));
    SelectMembers(Flatten(colleges), StateIs(Upper(state)));
  }

  /** `get_by_city`: exact, case-sensitive comparison. */
  method GetByCity(colleges: Colleges, city: string) returns (ret: seq<College>)
    ensures ret == Select(Flatten(colleges), CityIs(city))
    ensures forall c :: c in ret <==> c in Flatten(colleges) && c.city == city
    ensures |ret| <= |Flatten(colleges)|
  {
    ret := ScanAll(colleges, CityIs(city));
    SelectMembers(Flatten(colleges), CityIs(city));
  }

  /** `get_by_name`: both names lower-cased, so every record whose name differs only in letter case. */
  method GetByName(colleges: Colleges, name: string) returns (ret: seq<College>)
    ensures ret == Select(Flatten(colleges), LoweredNameIs(Lower(name)))
    ensures forall c :: c in ret <==> c in Flatten(colleges) && CaseVariants(c.name, name)
    ensures |ret| <= |Flatten(colleges)|
  {
    ret := ScanAll(colleges, LoweredNameIs(Lower(name)));
    SelectMembers(Flatten(colleges), LoweredNameIs(Lower(name)));
    forall c: College
      ensures Lower(c.name) == Lower(name) <==> CaseVariants(c.name, name)
    {
      LowerIdentifiesCaseVariants(c.name, name);
    }
  }

  /** `get_by_score`: records whose score equals the query exactly. */
  method GetByScore(colleges: Colleges, score: real) returns (ret: seq<College>)
    ensures ret == Select(Flatten(colleges), ScoreIs(score))
    ensures forall c :: c in ret <==> c in Flatten(colleges) && c.score == score
    ensures |ret| <= |Flatten(colleges)|
  {
    ret := ScanAll(colleges, ScoreIs(score));
    SelectMembers(Flatten(colleges), ScoreIs(score));
  }

  /** `get_by_score_within`: both bounds inclusive; the bounds are not checked against each other. */
  method GetByScoreWithin(colleges: Colleges, minimum: real, maximum: real) returns (ret: seq<College>)
    ensures ret == Select(Flatten(colleges), ScoreWithin(minimum, maximum))
    ensures forall c :: c in ret <==> c in Flatten(colleges) && minimum <= c.score <= maximum
    ensures |ret| <= |Flatten(colleges)|
    ensures minimum > maximum ==> ret == []
  {
    ret := ScanAll(colleges, ScoreWithin(minimum, maximum));
    SelectMembers(Flatten(colleges), ScoreWithin(minimum, maximum));
    if minimum > maximum {
      SelectNone(Flatten(colleges), ScoreWithin(minimum, maximum));
    }
  }

  /** `get_by_id`: the first record, in scan order, with that id; `None` stands for `{}`. */
  method GetById(colleges: Colleges, id: string) returns (r: Option<College>)
    ensures r == First(Select(Flatten(colleges), IdIs(id)))
    ensures r.None? <==> forall i :: 0 <= i < |Flatten(colleges)| ==> Flatten(colleges)[i].id != id
    ensures r.Some? ==>
      exists i :: 0 <= i < |Flatten(colleges)| && Flatten(colleges)[i] == r.value && r.value.id == id
               && forall j :: 0 <= j < i ==> Flatten(colleges)[j].id != id
  {
    r := ScanFirst(colleges, IdIs(id));
    FirstNone(Flatten(colleges), IdIs(id));
    if r.Some? {
      FirstMatch(Flatten(colleges), IdIs(id));
    }
  }

  /** `get_by_fice`: the first record, in scan order, with that FICE code; `None` stands for `{}`. */
  method GetByFice(colleges: Colleges, ficeCode: string) returns (r: Option<College>)
    ensures r == First(Select(Flatten(colleges), FiceIs(ficeCode)))
    ensures r.None? <==> forall i :: 0 <= i < |Flatten(colleges)| ==> Flatten(colleges)[i].ficeCode != ficeCode
    ensures r.Some? ==>
      exists i :: 0 <= i < |Flatten(colleges)| && Flatten(colleges)[i] == r.value && r.value.ficeCode == ficeCode
               && forall j :: 0 <= j < i ==> Flatten(colleges)[j].ficeCode != ficeCode
  {
    r := ScanFirst(colleges, FiceIs(ficeCode));
    FirstNone(Flatten(colleges), FiceIs(ficeCode));
    if r.Some? {
      FirstMatch(Flatten(colleges), FiceIs(ficeCode));
    }
  }

  /** The `KeyError` a dictionary subscript raises for a missing key. */
  datatype LookupError = KeyError(key: string)

  /**
   * `get_by_rank`: `colleges[pos] or None`. A missing key raises; an empty group
   * is falsy and gives `None`; otherwise the group itself.
   */
  function GetByRank(colleges: Colleges, pos: string): (r: Result<Option<seq<College>>, LookupError>)
    ensures r.Failure? <==> pos !in colleges.keys
    ensures r.Failure? ==> r.error == KeyError(pos)
    ensures r.Success? ==> (r.value.None? <==> colleges.groups[pos] == [])
    ensures r.Success? && r.value.Some? ==> r.value.value == colleges.groups[pos]
  {
    if pos !in colleges.groups then Failure(KeyError(pos))
    else if colleges.groups[pos] == [] then Success(None)
    else Success(Some(colleges.groups[pos]))
  }

  /**
   * On a mapping built by `get_data`, looking up a rank fails exactly when no
   * item carried that display rank, never yields `None`, and otherwise yields the
   * records of the items with that display rank, in arrival order.
   */
  lemma RankOfCollected(items: seq<Item>, parseScore: string -> Option<real>, parseRank: string -> Option<int>,
                        pos: string)
    requires Collect(items, parseScore, parseRank).Success?
    ensures var r := GetByRank(Collect(items, parseScore, parseRank).value, pos);
      && (r.Failure? <==> forall i :: 0 <= i < |items| ==> items[i].displayRank != pos)
      && r != Success(None)
      && (r.Success? ==> AllConvert(WithRank(items, pos), parseScore, parseRank)
                         && r.value == Some(RecordsOf(WithRank(items, pos), parseScore, parseRank)))
  {
    CollectKeys(items, parseScore, parseRank);
    CollectGroups(items, parseScore, parseRank);
    FirstIndexSpec(items, pos);
  }

  /** The state search gives the same records for queries that differ only in letter case. */
  lemma StateQueryIgnoresCase(colleges: Colleges, a: string, b: string)
    requires CaseVariants(a, b)
    ensures Select(Flatten(colleges), StateIs(Upper(a))) == Select(Flatten(colleges), StateIs(Upper(b)))
  {
    UpperIdentifiesCaseVariants(a, b);
  }

  /**
   * Only the query is upper-cased: a record whose stored state has a lower-case
   * letter is never found by the state search, whatever the query.
   */
  lemma StateSearchMissesLowerCase(colleges: Colleges, state: string)
    ensures forall c :: c in Flatten(colleges) && Upper(c.state) != c.state ==>
      c !in Select(Flatten(colleges), StateIs(Upper(state)))
  {
    SelectMembers(Flatten(colleges), StateIs(Upper(state)));
    UpperIdempotent(state);
  }

  /** The name search gives the same records for queries that differ only in letter case. */
  lemma NameQueryIgnoresCase(colleges: Colleges, a: string, b: string)
    requires CaseVariants(a, b)
    ensures Select(Flatten(colleges), LoweredNameIs(Lower(a))) == Select(Flatten(colleges), LoweredNameIs(Lower(b)))
  {
    LowerIdentifiesCaseVariants(a, b);
  }

  /** A range search whose bounds coincide is the exact score search. */
  lemma ScoreWithinPoint(colleges: Colleges, score: real)
    ensures Select(Flatten(colleges), ScoreWithin(score, score)) == Select(Flatten(colleges), ScoreIs(score))
  {
    SelectSameTest(Flatten(colleges), ScoreWithin(score, score), ScoreIs(score));
  }

  /** Widening the range keeps every record the narrower range found. */
  lemma ScoreWithinWiden(colleges: Colleges, min1: real, max1: real, min2: real, max2: real)
    requires min2 <= min1 && max1 <= max2
    ensures forall c :: c in Select(Flatten(colleges), ScoreWithin(min1, max1)) ==>
      c in Select(Flatten(colleges), ScoreWithin(min2, max2))
  {
    SelectMembers(Flatten(colleges), ScoreWithin(min1, max1));
    SelectMembers(Flatten(colleges), ScoreWithin(min2, max2));
  }
}
