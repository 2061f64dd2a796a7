/**
 * The scan every `get_by_*` function performs: visit the groups in key order
 * and the records of each group in order, and either keep every record that
 * satisfies the query or stop at the first one.
 */
module Search {
  import opened Wrappers
  import opened Seqs
  import opened Records
  import opened Text

  /** The test one search function applies to each record. */
  datatype Query =
    | StateIs(state: string)
    | CityIs(city: string)
    | LoweredNameIs(name: string)
    | ScoreIs(score: real)
    | ScoreWithin(minimum: real, maximum: real)
    | IdIs(id: string)
    | FiceIs(ficeCode: string)

  predicate Matches(q: Query, c: College)
  {
    match q
    case StateIs(state) => c.state == state
    case CityIs(city) => c.city == city
    case LoweredNameIs(name) => Lower(c.name) == name
    case ScoreIs(score) => c.score == score
    case ScoreWithin(minimum, maximum) => minimum <= c.score <= maximum
    case IdIs(id) => c.id == id
    case FiceIs(ficeCode) => c.ficeCode == ficeCode
  }

  /** The records of `s` that satisfy `q`, in order. */
  function Select(s: seq<College>, q: Query): seq<College>
    decreases |s|
  {
    if s == [] then []
    else Select(s[..|s| - 1], q) + (if Matches(q, s[|s| - 1]) then [s[|s| - 1]] else [])
  }

  /** The positions in `s` of the records that satisfy `q`, in increasing order. */
  function MatchIndices(s: seq<College>, q: Query): seq<nat>
    decreases |s|
  {
    if s == [] then []
    else MatchIndices(s[..|s| - 1], q) + (if Matches(q, s[|s| - 1]) then [|s| - 1] else [])
  }

  /** The first element, if any: what a scan that returns at the first match yields. */
  function First(s: seq<College>): Option<College>
  {
    if s == [] then None else Some(s[0])
  }

  /**
   * `Select` keeps exactly the records at the matching positions, each once and
   * in their original order.
   */
  lemma {:induction false} SelectAtMatchIndices(s: seq<College>, q: Query)
    ensures var idx := MatchIndices(s, q);
      && |idx| == |Select(s, q)|
      && (forall k :: 0 <= k < |idx| ==> idx[k] < |s| && Matches(q, s[idx[k]]) && Select(s, q)[k] == s[idx[k]])
      && (forall k, l :: 0 <= k < l < |idx| ==> idx[k] < idx[l])
      && (forall i :: 0 <= i < |s| && Matches(q, s[i]) ==> i in idx)
    decreases |s|
  {
    if s != [] {
      var s' := s[..|s| - 1];
      SelectAtMatchIndices(s', q);
      assert forall i :: 0 <= i < |s'| ==> s'[i] == s[i];
      if Matches(q, s[|s| - 1]) {
        assert MatchIndices(s, q) == MatchIndices(s', q) + [|s| - 1];
        assert Select(s, q) == Select(s', q) + [s[|s| - 1]];
      } else {
        assert MatchIndices(s, q) == MatchIndices(s', q);
        assert Select(s, q) == Select(s', q);
      }
    }
  }

  /** A record is selected exactly when it occurs in the input and satisfies the query. */
  lemma {:induction false} SelectMembers(s: seq<College>, q: Query)
    ensures forall c :: c in Select(s, q) <==> c in s && Matches(q, c)
    ensures |Select(s, q)| <= |s|
  {
    SelectAtMatchIndices(s, q);
    var idx := MatchIndices(s, q);
    forall c | c in s && Matches(q, c)
      ensures c in Select(s, q)
    {
      var i :| 0 <= i < |s| && s[i] == c;
      var k :| 0 <= k < |idx| && idx[k] == i;
      assert Select(s, q)[k] == c;
    }
    SelectLength(s, q);
  }

  lemma {:induction false} SelectLength(s: seq<College>, q: Query)
    ensures |Select(s, q)| <= |s|
    decreases |s|
  {
    if s != [] {
      SelectLength(s[..|s| - 1], q);
    }
  }

  /** The scan finds nothing exactly when no record matches. */
  lemma FirstNone(s: seq<College>, q: Query)
    ensures First(Select(s, q)).None? <==> forall i :: 0 <= i < |s| ==> !Matches(q, s[i])
  {
    SelectAtMatchIndices(s, q);
  }

  /** The first selected record is the record at the first matching position. */
  lemma FirstMatch(s: seq<College>, q: Query)
    requires First(Select(s, q)).Some?
    ensures exists i :: 0 <= i < |s| && s[i] == First(Select(s, q)).value && Matches(q, s[i])
                     && forall j :: 0 <= j < i ==> !Matches(q, s[j])
  {
    SelectAtMatchIndices(s, q);
    var idx := MatchIndices(s, q);
    assert forall k :: 0 <= k < |idx| ==> idx[0] <= idx[k];
  }

  /** Selecting from two runs of records is selecting from each. */
  lemma {:induction false} SelectAppend(a: seq<College>, b: seq<College>, q: Query)
    ensures Select(a + b, q) == Select(a, q) + Select(b, q)
    decreases |b|
  {
    if b == [] {
      assert a + b == a;
    } else {
      var b' := b[..|b| - 1];
      assert (a + b)[..|a + b| - 1] == a + b';
      SelectAppend(a, b', q);
    }
  }

  /** Two queries that accept the same records select the same records. */
  lemma {:induction false} SelectSameTest(s: seq<College>, q1: Query, q2: Query)
    requires forall c :: Matches(q1, c) <==> Matches(q2, c)
    ensures Select(s, q1) == Select(s, q2)
    decreases |s|
  {
    if s != [] {
      SelectSameTest(s[..|s| - 1], q1, q2);
    }
  }

  /** Visiting one more group adds that group's matches after the earlier ones. */
  lemma ScanStep(vs: seq<seq<College>>, i: nat, q: Query)
    requires i < |vs|
    ensures Select(Concat(vs[..i + 1]), q) == Select(Concat(vs[..i]), q) + Select(vs[i], q)
  {
    assert vs[..i + 1][..i] == vs[..i];
    SelectAppend(Concat(vs[..i]), vs[i], q);
  }

  /** Once the groups visited so far hold a match, the later groups cannot change the first one. */
  lemma FirstOfPrefix(vs: seq<seq<College>>, i: nat, q: Query)
    requires i <= |vs| && Select(Concat(vs[..i]), q) != []
    ensures First(Select(Concat(vs), q)) == First(Select(Concat(vs[..i]), q))
  {
    assert vs == vs[..i] + vs[i..];
    ConcatAppend(vs[..i], vs[i..]);
    SelectAppend(Concat(vs[..i]), Concat(vs[i..]), q);
  }

  /**
   * With no match in the groups before group `i`, the first match overall is the
   * first match of group `i` when it has one; otherwise there is still no match.
   */
  lemma FirstStep(vs: seq<seq<College>>, i: nat, q: Query)
    requires i < |vs| && Select(Concat(vs[..i]), q) == []
    ensures First(Select(vs[i], q)).Some? ==> First(Select(Concat(vs), q)) == First(Select(vs[i], q))
    ensures First(Select(vs[i], q)).None? ==> Select(Concat(vs[..i + 1]), q) == []
  {
    ScanStep(vs, i, q);
    if Select(vs[i], q) != [] {
      FirstOfPrefix(vs, i + 1, q);
    }
  }

  /** A query that accepts no record selects nothing. */
  lemma {:induction false} SelectNone(s: seq<College>, q: Query)
    requires forall c :: !Matches(q, c)
    ensures Select(s, q) == []
    decreases |s|
  {
    if s != [] {
      SelectNone(s[..|s| - 1], q);
    }
  }

  /** The nested loops of a `get_by_*` function that collects every match. */
  method ScanAll(colleges: Colleges, q: Query) returns (ret: seq<College>)
    ensures ret == Select(Flatten(colleges), q)
  {
    ghost var vs := Values(colleges);
    ret := [];
    for i := 0 to |colleges.keys|
      invariant ret == Select(Concat(vs[..i]), q)
    {
      var found := ScanGroup(colleges.groups[colleges.keys[i]], q);
      ScanStep(vs, i, q);
      ret := ret + found;
    }
    assert vs[..|colleges.keys|] == vs;
  }

  /** The inner loop over one group's records. */
  method ScanGroup(group: seq<College>, q: Query) returns (ret: seq<College>)
    ensures ret == Select(group, q)
  {
    ret := [];
    for j := 0 to |group|
      invariant ret == Select(group[..j], q)
    {
      assert group[..j + 1][..j] == group[..j];
      if Matches(q, group[j]) {
        ret := ret + [group[j]];
      }
    }
    assert group[..|group|] == group;
  }

  /** The nested loops of a `get_by_*` function that returns at the first match. */
  method ScanFirst(colleges: Colleges, q: Query) returns (r: Option<College>)
    ensures r == First(Select(Flatten(colleges), q))
  {
    ghost var vs := Values(colleges);
    for i := 0 to |colleges.keys|
      invariant Select(Concat(vs[..i]), q) == []
    {
      r := FirstInGroup(colleges.groups[colleges.keys[i]], q);
      FirstStep(vs, i, q);
      if r.Some? {
        return;
      }
    }
    assert vs[..|colleges.keys|] == vs;
    r := None;
  }

  /** The inner loop over one group's records, returning at the first match. */
  method FirstInGroup(group: seq<College>, q: Query) returns (r: Option<College>)
    ensures r == First(Select(group, q))
  {
    for j := 0 to |group|
      invariant Select(group[..j], q) == []
    {
      assert group[..j + 1][..j] == group[..j];
      if Matches(q, group[j]) {
        assert group == group[..j + 1] + group[j + 1..];
        SelectAppend(group[..j + 1], group[j + 1..], q);
        return Some(group[j]);
      }
    }
    assert group[..|group|] == group;
    return None;
  }
}
