/** The subject and city choices offered by the filter controls
    (TeacherDirectory.jsx, the two `useMemo` lists). */
module Options {
  import opened Seqs
  import opened Tutors

  function SubjectLists(ts: seq<Tutor>): (xss: seq<seq<string>>)
    ensures |xss| == |ts|
    ensures forall i :: 0 <= i < |ts| ==> xss[i] == ts[i].subjects
  {
    seq(|ts|, i requires 0 <= i < |ts| => ts[i].subjects)
  }

  function CitiesOf(ts: seq<Tutor>): (cs: seq<string>)
    ensures |cs| == |ts|
    ensures forall i :: 0 <= i < |ts| ==> cs[i] == ts[i].city
  {
    seq(|ts|, i requires 0 <= i < |ts| => ts[i].city)
  }

  function NonEmpty(s: string): bool {
    s != ""
  }

  /** `[...new Set(teachers.flatMap(t => t.subjects))]`: each subject some
      tutor teaches, once. */
  function SubjectOptions(ts: seq<Tutor>): (r: seq<string>)
    ensures NoDuplicates(r)
    ensures forall k :: 0 <= k < |r| ==> exists i :: 0 <= i < |ts| && r[k] in ts[i].subjects
    ensures forall i, j :: 0 <= i < |ts| && 0 <= j < |ts[i].subjects| ==> ts[i].subjects[j] in r
  {
    Distinct(Flatten(SubjectLists(ts)))
  }

  /** `[...new Set(teachers.map(t => t.city).filter(Boolean))]`: each
      non-empty city some tutor is in, once. */
  function CityOptions(ts: seq<Tutor>): (r: seq<string>)
    ensures NoDuplicates(r)
    ensures "" !in r
    ensures forall k :: 0 <= k < |r| ==> exists i :: 0 <= i < |ts| && r[k] == ts[i].city
    ensures forall i :: 0 <= i < |ts| && ts[i].city != "" ==> ts[i].city in r
  {
    var cities := Filter(CitiesOf(ts), NonEmpty);
    assert forall i :: 0 <= i < |ts| && ts[i].city != "" ==> ts[i].city in cities by {
      forall i | 0 <= i < |ts| && ts[i].city != "" ensures ts[i].city in cities {
        assert CitiesOf(ts)[i] == ts[i].city;
      }
    }
    Distinct(cities)
  }

  /** Both lists follow the order in which values first appear: an option
      comes before another exactly when its first occurrence does. */
  lemma OptionsKeepFirstSeenOrder(ts: seq<Tutor>)
    ensures var all, r := Flatten(SubjectLists(ts)), SubjectOptions(ts);
      forall i, j :: 0 <= i < j < |r| ==> FirstIndex(all, r[i]) < FirstIndex(all, r[j])
    ensures var all, r := Filter(CitiesOf(ts), NonEmpty), CityOptions(ts);
      forall i, j :: 0 <= i < j < |r| ==> FirstIndex(all, r[i]) < FirstIndex(all, r[j])
    ensures IsSubsequence(SubjectOptions(ts), Flatten(SubjectLists(ts)))
    ensures IsSubsequence(CityOptions(ts), Filter(CitiesOf(ts), NonEmpty))
  {
    DistinctFromIsSubsequence(Flatten(SubjectLists(ts)), {});
    DistinctFromIsSubsequence(Filter(CitiesOf(ts), NonEmpty), {});
  }
}
