/** Filter-and-rank: `filterTeachers` in TeacherDirectory.jsx. Tutors are
    kept when they match the city, subject and search filters, each paired
    with its planar distance to the viewer, and stably sorted by it.

    The `distance` carried here is the SQUARED planar distance: `Math.sqrt`
    is monotone on the non-negative reals and +Infinity, so the comparator
    `a.distance - b.distance` orders and ties the two alike. */
module Ranking {
  import opened JsNumber
  import opened Strings
  import opened Seqs
  import opened Tutors

  /** The filter inputs; "" means no constraint. */
  datatype Query = Query(city: string, subject: string, search: string)

  /** A tutor with its (squared) distance to the viewer. */
  datatype Ranked = Ranked(tutor: Tutor, distance: Num)

  predicate MatchesCity(t: Tutor, city: string) {
    city == "" || t.city == city
  }

  predicate MatchesSubject(t: Tutor, subject: string) {
    subject == "" || subject in t.subjects
  }

  /** Case-folded substring search over the name or the space-joined
      subjects; `lower` is the per-character `toLowerCase`. */
  predicate MatchesSearch(t: Tutor, search: string, lower: char -> char) {
    var needle := MapChars(search, lower);
    search == ""
    || Contains(MapChars(t.name, lower), needle)
    || Contains(MapChars(Join(t.subjects, " "), lower), needle)
  }

  predicate Matches(t: Tutor, q: Query, lower: char -> char) {
    MatchesCity(t, q.city) && MatchesSubject(t, q.subject) && MatchesSearch(t, q.search, lower)
  }

  function Matcher(q: Query, lower: char -> char): Tutor -> bool {
    (t: Tutor) => Matches(t, q, lower)
  }

  /** The `.filter(...)` stage. */
  function Retain(ts: seq<Tutor>, q: Query, lower: char -> char): seq<Tutor> {
    Filter(ts, Matcher(q, lower))
  }

  /** `(lat || 0) - viewerLat`. */
  function Offset(coordinate: Num, viewer: real): Num {
    Sub(NumOr(coordinate, Finite(0.0)), Finite(viewer))
  }

  predicate IsInfinite(n: Num) {
    n.PosInf? || n.NegInf?
  }

  /** The real value a non-infinite coordinate is measured at: `lat || 0`
      reads NaN (and 0) as 0. */
  function Measured(n: Num): real {
    if n.Finite? then n.v else 0.0
  }

  /** The squared planar distance from `(lat, lng)` to the viewer. */
  function PlanarSquared(lat: real, lng: real, viewer: Point): real {
    (lat - viewer.lat) * (lat - viewer.lat) + (lng - viewer.lng) * (lng - viewer.lng)
  }

  /** `latDiff ** 2 + lngDiff ** 2`: the squared planar distance when
      neither coordinate is infinite, a NaN coordinate counting as 0, and
      +Infinity otherwise. */
  function SquaredDistance(c: Coords, viewer: Point): (d: Num)
    ensures IsDistance(d)
    ensures d.Finite? <==> !IsInfinite(c.lat) && !IsInfinite(c.lng)
    ensures !IsInfinite(c.lat) && !IsInfinite(c.lng)
      ==> d == Finite(PlanarSquared(Measured(c.lat), Measured(c.lng), viewer))
  {
    Add(Square(Offset(c.lat, viewer.lat)), Square(Offset(c.lng, viewer.lng)))
  }

  /** `lat || 0`: a NaN coordinate is measured exactly as 0 is. */
  lemma NaNCoordinateCountsAsZero(c: Coords, viewer: Point)
    ensures SquaredDistance(c.(lat := NaN), viewer) == SquaredDistance(c.(lat := Finite(0.0)), viewer)
    ensures SquaredDistance(c.(lng := NaN), viewer) == SquaredDistance(c.(lng := Finite(0.0)), viewer)
  {
  }

  /** The `.map(...)` stage, pairing each tutor with its distance. */
  function Attach(ts: seq<Tutor>, viewer: Point): (rs: seq<Ranked>)
    ensures |rs| == |ts|
    ensures forall i :: 0 <= i < |ts| ==>
      rs[i].tutor == ts[i] && rs[i].distance == SquaredDistance(ts[i].location, viewer)
    decreases |ts|
  {
    if |ts| == 0 then []
    else [Ranked(ts[0], SquaredDistance(ts[0].location, viewer))] + Attach(ts[1..], viewer)
  }

  function TutorsOf(rs: seq<Ranked>): (ts: seq<Tutor>)
    ensures |ts| == |rs|
    decreases |rs|
  {
    if |rs| == 0 then [] else [rs[0].tutor] + TutorsOf(rs[1..])
  }

  /** The sort comparator `(a, b) => a.distance - b.distance` says `a` may
      stay before `b`: its result is not positive, a NaN result counting as
      0 (the CompareArrayElements step of `Array.prototype.sort` in ECMA-262). */
  function SortsBefore(a: Num, b: Num): (r: bool)
    ensures a == b ==> r
    ensures IsDistance(a) && IsDistance(b) ==> (r <==> DistLe(a, b))
  {
    !Positive(Sub(a, b))
  }

  /** Inserts `x` before the first element it sorts before: the step of a
      stable insertion sort that keeps `x` ahead of equal elements. */
  function Insert(x: Ranked, ys: seq<Ranked>): (r: seq<Ranked>)
    ensures multiset(r) == multiset(ys) + multiset{x}
    decreases |ys|
  {
    if |ys| == 0 || SortsBefore(x.distance, ys[0].distance) then [x] + ys
    else
      assert ys == [ys[0]] + ys[1..];
      [ys[0]] + Insert(x, ys[1..])
  }

  /** `.sort(comparator)`: stable, so any stable algorithm gives this result. */
  function SortByDistance(s: seq<Ranked>): (r: seq<Ranked>)
    ensures multiset(r) == multiset(s)
    decreases |s|
  {
    if |s| == 0 then []
    else
      assert s == [s[0]] + s[1..];
      Insert(s[0], SortByDistance(s[1..]))
  }

  ghost predicate AllDistances(rs: seq<Ranked>) {
    forall i :: 0 <= i < |rs| ==> IsDistance(rs[i].distance)
  }

  ghost predicate NonDecreasing(rs: seq<Ranked>) {
    forall i, j :: 0 <= i < j < |rs| ==> DistLe(rs[i].distance, rs[j].distance)
  }

  /** `filterTeachers(teachers, city, subject, search, userLocation)`. */
  function FilterTeachers(ts: seq<Tutor>, q: Query, viewer: Point, lower: char -> char): (r: seq<Ranked>)
    ensures NonDecreasing(r)
    ensures AllDistances(r)
    ensures multiset(r) == multiset(Attach(Retain(ts, q, lower), viewer))
  {
    var ranked := Attach(Retain(ts, q, lower), viewer);
    AttachGivesDistances(Retain(ts, q, lower), viewer);
    SortIsSorted(ranked);
    SortByDistance(ranked)
  }

  lemma {:induction false} AttachGivesDistances(ts: seq<Tutor>, viewer: Point)
    ensures AllDistances(Attach(ts, viewer))
    decreases |ts|
  {
    if |ts| > 0 {
      AttachGivesDistances(ts[1..], viewer);
    }
  }

  /** For distances the comparator is the order of the extended reals. */
  lemma ComparatorIsDistanceOrder(a: Num, b: Num)
    requires IsDistance(a) && IsDistance(b)
    ensures SortsBefore(a, b) <==> DistLe(a, b)
  {
  }

  /** Whatever the values, an element sorts before an equal one. */
  lemma SortsBeforeReflexive(a: Num)
    ensures SortsBefore(a, a)
  {
  }

  /** Every element of `Insert(x, ys)` is `x` or an element of `ys`. */
  lemma InsertMember(x: Ranked, ys: seq<Ranked>, j: nat)
    requires j < |Insert(x, ys)|
    ensures Insert(x, ys)[j] == x || exists m :: 0 <= m < |ys| && ys[m] == Insert(x, ys)[j]
  {
    var r := Insert(x, ys);
    assert r[j] in multiset(r);
    if r[j] != x {
      assert r[j] in multiset(ys);
    }
  }

  lemma {:induction false} InsertIsSorted(x: Ranked, ys: seq<Ranked>)
    requires IsDistance(x.distance) && AllDistances(ys) && NonDecreasing(ys)
    ensures AllDistances(Insert(x, ys)) && NonDecreasing(Insert(x, ys))
    decreases |ys|
  {
    var r := Insert(x, ys);
    forall i | 0 <= i < |r|
      ensures IsDistance(r[i].distance)
    {
      InsertMember(x, ys, i);
    }
    if |ys| > 0 && !SortsBefore(x.distance, ys[0].distance) {
      ComparatorIsDistanceOrder(x.distance, ys[0].distance);
      var tail := Insert(x, ys[1..]);
      InsertIsSorted(x, ys[1..]);
      forall j | 0 <= j < |tail|
        ensures DistLe(ys[0].distance, tail[j].distance)
      {
        InsertMember(x, ys[1..], j);
      }
      assert r == [ys[0]] + tail;
    } else if |ys| > 0 {
      ComparatorIsDistanceOrder(x.distance, ys[0].distance);
    }
  }

  /** The ranked output is sorted non-decreasing by distance. */
  lemma {:induction false} SortIsSorted(s: seq<Ranked>)
    requires AllDistances(s)
    ensures AllDistances(SortByDistance(s)) && NonDecreasing(SortByDistance(s))
    decreases |s|
  {
    if |s| > 0 {
      SortIsSorted(s[1..]);
      InsertIsSorted(s[0], SortByDistance(s[1..]));
    }
  }

  /** The tutors at distance `k`. */
  function AtDistance(k: Num): Ranked -> bool {
    (r: Ranked) => r.distance == k
  }

  lemma {:induction false} InsertIsStable(x: Ranked, ys: seq<Ranked>, k: Num)
    ensures Filter(Insert(x, ys), AtDistance(k))
      == (if x.distance == k then [x] else []) + Filter(ys, AtDistance(k))
    decreases |ys|
  {
    if |ys| == 0 || SortsBefore(x.distance, ys[0].distance) {
      assert Insert(x, ys) == [x] + ys;
      FilterCons(x, ys, AtDistance(k));
    } else {
      InsertIsStable(x, ys[1..], k);
      InsertAfterHeadIsStable(x, ys, k);
    }
  }

  lemma InsertAfterHeadIsStable(x: Ranked, ys: seq<Ranked>, k: Num)
    requires |ys| > 0 && !SortsBefore(x.distance, ys[0].distance)
    requires Filter(Insert(x, ys[1..]), AtDistance(k))
      == (if x.distance == k then [x] else []) + Filter(ys[1..], AtDistance(k))
    ensures Filter(Insert(x, ys), AtDistance(k))
      == (if x.distance == k then [x] else []) + Filter(ys, AtDistance(k))
  {
    var y, rest := ys[0], ys[1..];
    assert ys == [y] + rest;
    assert Insert(x, ys) == [y] + Insert(x, rest);
    SortsBeforeReflexive(x.distance);
    FilterPastHead(y, rest, Insert(x, rest), if x.distance == k then [x] else [], AtDistance(k));
  }

  /** Stability: the tutors at any one distance come out in input order. */
  lemma {:induction false} SortIsStable(s: seq<Ranked>, k: Num)
    ensures Filter(SortByDistance(s), AtDistance(k)) == Filter(s, AtDistance(k))
    decreases |s|
  {
    if |s| > 0 {
      SortIsStable(s[1..], k);
      InsertIsStable(s[0], SortByDistance(s[1..]), k);
    }
  }

  lemma {:induction false} TutorsOfInsert(x: Ranked, ys: seq<Ranked>)
    ensures multiset(TutorsOf(Insert(x, ys))) == multiset(TutorsOf(ys)) + multiset{x.tutor}
    decreases |ys|
  {
    if |ys| == 0 || SortsBefore(x.distance, ys[0].distance) {
      assert ([x] + ys)[1..] == ys;
    } else {
      TutorsOfInsert(x, ys[1..]);
      var r := [ys[0]] + Insert(x, ys[1..]);
      assert r[1..] == Insert(x, ys[1..]);
    }
  }

  lemma {:induction false} TutorsOfSort(s: seq<Ranked>)
    ensures multiset(TutorsOf(SortByDistance(s))) == multiset(TutorsOf(s))
    decreases |s|
  {
    if |s| > 0 {
      TutorsOfSort(s[1..]);
      TutorsOfInsert(s[0], SortByDistance(s[1..]));
    }
  }

  lemma {:induction false} TutorsOfAttach(ts: seq<Tutor>, viewer: Point)
    ensures TutorsOf(Attach(ts, viewer)) == ts
    decreases |ts|
  {
    if |ts| > 0 {
      TutorsOfAttach(ts[1..], viewer);
      assert ts == [ts[0]] + ts[1..];
    }
  }

  /** The ranked tutors are a permutation of a subsequence of the input:
      exactly the matching tutors, each once. */
  lemma RankedIsPermutedSubsequence(ts: seq<Tutor>, q: Query, viewer: Point, lower: char -> char)
    ensures multiset(TutorsOf(FilterTeachers(ts, q, viewer, lower))) == multiset(Retain(ts, q, lower))
    ensures IsSubsequence(Retain(ts, q, lower), ts)
  {
    var kept := Retain(ts, q, lower);
    TutorsOfSort(Attach(kept, viewer));
    TutorsOfAttach(kept, viewer);
    FilterIsSubsequence(ts, Matcher(q, lower));
  }

  lemma {:induction false} AttachMember(ts: seq<Tutor>, viewer: Point, x: Ranked)
    requires x in Attach(ts, viewer)
    ensures x.tutor in ts && x.distance == SquaredDistance(x.tutor.location, viewer)
    decreases |ts|
  {
    if x != Attach(ts, viewer)[0] {
      AttachMember(ts[1..], viewer, x);
    }
  }

  /** Every ranked tutor came from the input, passes all three filters and
      carries its own distance to the viewer. */
  lemma RankedTutorsMatch(ts: seq<Tutor>, q: Query, viewer: Point, lower: char -> char)
    ensures forall i :: 0 <= i < |FilterTeachers(ts, q, viewer, lower)| ==>
      var x := FilterTeachers(ts, q, viewer, lower)[i];
      x.tutor in ts && Matches(x.tutor, q, lower)
      && x.distance == SquaredDistance(x.tutor.location, viewer)
  {
    var r := FilterTeachers(ts, q, viewer, lower);
    var kept := Retain(ts, q, lower);
    forall i | 0 <= i < |r|
      ensures r[i].tutor in ts && Matches(r[i].tutor, q, lower)
      ensures r[i].distance == SquaredDistance(r[i].tutor.location, viewer)
    {
      assert r[i] in multiset(r);
      AttachMember(kept, viewer, r[i]);
    }
  }

  /** Among tutors at the same distance, the input order is kept. */
  lemma RankingIsStable(ts: seq<Tutor>, q: Query, viewer: Point, lower: char -> char, k: Num)
    ensures Filter(FilterTeachers(ts, q, viewer, lower), AtDistance(k))
      == Filter(Attach(Retain(ts, q, lower), viewer), AtDistance(k))
  {
    SortIsStable(Attach(Retain(ts, q, lower), viewer), k);
  }

  /** With no filter set every tutor is ranked. */
  lemma NoFiltersKeepEveryone(ts: seq<Tutor>, viewer: Point, lower: char -> char)
    ensures Retain(ts, Query("", "", ""), lower) == ts
    ensures |FilterTeachers(ts, Query("", "", ""), viewer, lower)| == |ts|
  {
    FilterKeepsAll(ts, Matcher(Query("", "", ""), lower));
    var r := FilterTeachers(ts, Query("", "", ""), viewer, lower);
    assert |multiset(r)| == |multiset(Attach(ts, viewer))|;
  }

  /** An empty filter value constrains nothing: the other two decide alone. */
  lemma EmptyFilterIsIdentity(t: Tutor, q: Query, lower: char -> char)
    ensures Matches(t, q.(city := ""), lower) <==> MatchesSubject(t, q.subject) && MatchesSearch(t, q.search, lower)
    ensures Matches(t, q.(subject := ""), lower) <==> MatchesCity(t, q.city) && MatchesSearch(t, q.search, lower)
    ensures Matches(t, q.(search := ""), lower) <==> MatchesCity(t, q.city) && MatchesSubject(t, q.subject)
  {
  }

  /** A city that no tutor is in yields an empty ranking, not an error. */
  lemma UnknownCityRanksNobody(ts: seq<Tutor>, q: Query, viewer: Point, lower: char -> char)
    requires q.city != ""
    requires forall i :: 0 <= i < |ts| ==> ts[i].city != q.city
    ensures FilterTeachers(ts, q, viewer, lower) == []
  {
    FilterKeepsNone(ts, Matcher(q, lower));
  }

  /** `a` is strictly nearer the viewer than `b`: `a` has no infinite
      coordinate, and `b` has one or is farther in the plane. */
  predicate Nearer(a: Coords, b: Coords, viewer: Point) {
    !IsInfinite(a.lat) && !IsInfinite(a.lng)
    && (IsInfinite(b.lat) || IsInfinite(b.lng)
        || PlanarSquared(Measured(a.lat), Measured(a.lng), viewer)
           < PlanarSquared(Measured(b.lat), Measured(b.lng), viewer))
  }

  /** A tutor strictly nearer the viewer is ranked before a farther one. */
  lemma NearerRanksFirst(ts: seq<Tutor>, q: Query, viewer: Point, lower: char -> char)
    ensures var r := FilterTeachers(ts, q, viewer, lower);
      forall i, j ::
        (0 <= i < |r| && 0 <= j < |r| && Nearer(r[i].tutor.location, r[j].tutor.location, viewer))
        ==> i < j
  {
    var r := FilterTeachers(ts, q, viewer, lower);
    RankedTutorsMatch(ts, q, viewer, lower);
    SortedPutsNearerFirst(r, viewer);
  }

  /** In any list sorted by distance to the viewer, a strictly nearer tutor
      comes first. */
  lemma SortedPutsNearerFirst(r: seq<Ranked>, viewer: Point)
    requires NonDecreasing(r)
    requires forall k :: 0 <= k < |r| ==> r[k].distance == SquaredDistance(r[k].tutor.location, viewer)
    ensures forall i, j ::
      (0 <= i < |r| && 0 <= j < |r| && Nearer(r[i].tutor.location, r[j].tutor.location, viewer))
      ==> i < j
  {
    forall i, j | 0 <= i < |r| && 0 <= j < |r| && Nearer(r[i].tutor.location, r[j].tutor.location, viewer)
      ensures i < j
    {
      NearerHasSmallerDistance(r[i].tutor.location, r[j].tutor.location, viewer);
      assert !DistLe(r[j].distance, r[i].distance);
    }
  }

  lemma NearerHasSmallerDistance(a: Coords, b: Coords, viewer: Point)
    requires Nearer(a, b, viewer)
    ensures !DistLe(SquaredDistance(b, viewer), SquaredDistance(a, viewer))
  {
  }

  /** Searching for a subject a tutor lists finds that tutor, whatever the
      case mapping. */
  lemma SearchFindsListedSubject(t: Tutor, search: string, lower: char -> char)
    requires search in t.subjects
    ensures MatchesSearch(t, search, lower)
  {
    var k :| 0 <= k < |t.subjects| && t.subjects[k] == search;
    PartOccursInJoin(t.subjects, " ", k);
    OccursUnderMapChars(Join(t.subjects, " "), search, lower);
    ContainsIffOccurs(MapChars(Join(t.subjects, " "), lower), MapChars(search, lower));
  }

  /** A search for part of a tutor's name finds that tutor. */
  lemma SearchFindsNamePart(t: Tutor, search: string, lower: char -> char)
    requires Occurs(t.name, search)
    ensures MatchesSearch(t, search, lower)
  {
    OccursUnderMapChars(t.name, search, lower);
    ContainsIffOccurs(MapChars(t.name, lower), MapChars(search, lower));
  }
}
