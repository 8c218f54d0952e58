/** The map view (LazyMapSection.jsx): the points the map is fitted to and
    one marker, coloured by first subject and labelled with initials, per
    ranked tutor whose coordinates are finite. LazyMapSection applies no cap
    to the list it is given. */
module MapSection {
  import opened Wrappers
  import opened JsNumber
  import opened Strings
  import opened Seqs
  import opened Tutors
  import opened Ranking
  import opened Pagination

  const DefaultColor: string := "#FF5722"

  /** `subjectColors`, including its `default` entry. */
  const SubjectColors: map<string, string> := map[
    "Mathematics" := "#1E88E5",
    "Physics" := "#43A047",
    "Chemistry" := "#F4511E",
    "Biology" := "#8E24AA",
    "English" := "#FDD835",
    "Computer Science" := "#3949AB",
    "Statistics" := "#FB8C00",
    "Botany" := "#4CAF50",
    "Zoology" := "#E53935",
    "default" := DefaultColor]

  /** The subjects with a colour of their own. */
  const NamedSubjects: set<string> := {
    "Mathematics", "Physics", "Chemistry", "Biology", "English",
    "Computer Science", "Statistics", "Botany", "Zoology"}

  datatype Marker = Marker(id: string, position: Point, color: string, initials: string)

  /** `Number.isFinite(lat) && Number.isFinite(lng) ? [lat, lng] : null`. */
  function LocatedPoint(r: Ranked): Option<Point> {
    var c := r.tutor.location;
    if c.lat.Finite? && c.lng.Finite? then Some(Point(c.lat.v, c.lng.v)) else None
  }

  predicate Locatable(r: Ranked) {
    LocatedPoint(r).Some?
  }

  /** `teacherPoints`: the map over `filtered` followed by `.filter(Boolean)`. */
  function TeacherPoints(filtered: seq<Ranked>): (ps: seq<Point>)
    ensures |ps| <= |filtered|
    decreases |filtered|
  {
    if |filtered| == 0 then []
    else
      (match LocatedPoint(filtered[0])
       case Some(p) => [p]
       case None => [])
      + TeacherPoints(filtered[1..])
  }

  /** `allPoints = [userLocation, ...teacherPoints]`. */
  function AllPoints(viewer: Point, filtered: seq<Ranked>): (ps: seq<Point>)
    ensures |ps| >= 1 && ps[0] == viewer
    ensures |ps| <= 1 + |filtered|
  {
    [viewer] + TeacherPoints(filtered)
  }

  /** The early return of `FitBounds`. */
  predicate FitBoundsSkips(points: seq<Point>) {
    |points| == 0
  }

  function PositionsOf(rs: seq<Ranked>): (ps: seq<Point>)
    requires forall i :: 0 <= i < |rs| ==> Locatable(rs[i])
    ensures |ps| == |rs|
    decreases |rs|
  {
    if |rs| == 0 then []
    else
      assert Locatable(rs[0]);
      [LocatedPoint(rs[0]).value] + PositionsOf(rs[1..])
  }

  /** The teacher points are the positions of exactly the tutors with finite
      coordinates, in ranked order. */
  lemma {:induction false} TeacherPointsAreLocatableTutors(filtered: seq<Ranked>)
    ensures var located := Filter(filtered, Locatable);
      TeacherPoints(filtered) == PositionsOf(located)
    decreases |filtered|
  {
    if |filtered| > 0 {
      TeacherPointsAreLocatableTutors(filtered[1..]);
    }
  }

  /** The viewer point is always there, so the fit never bails out, and the
      map holds at most one point per ranked tutor besides it. */
  lemma FitBoundsAlwaysFits(viewer: Point, filtered: seq<Ranked>)
    ensures !FitBoundsSkips(AllPoints(viewer, filtered))
    ensures AllPoints(viewer, filtered)[0] == viewer
    ensures |AllPoints(viewer, filtered)| == 1 + |Filter(filtered, Locatable)|
    ensures |AllPoints(viewer, filtered)| <= 1 + |filtered|
  {
    TeacherPointsAreLocatableTutors(filtered);
  }

  /** With every coordinate finite, every ranked tutor is on the map. */
  lemma EveryFiniteTutorIsPlotted(filtered: seq<Ranked>)
    requires forall i :: 0 <= i < |filtered| ==> Locatable(filtered[i])
    ensures |TeacherPoints(filtered)| == |filtered|
  {
    TeacherPointsAreLocatableTutors(filtered);
    FilterKeepsAll(filtered, Locatable);
  }

  /** `n[0]` of a name token; `undefined` for an empty token joins as "". */
  function Head(token: string): (h: string)
    ensures |h| <= 1
  {
    if |token| == 0 then "" else [token[0]]
  }

  function Heads(tokens: seq<string>): (hs: seq<string>)
    ensures |hs| == |tokens|
    ensures forall i :: 0 <= i < |tokens| ==> hs[i] == Head(tokens[i])
  {
    seq(|tokens|, i requires 0 <= i < |tokens| => Head(tokens[i]))
  }

  /** `name.split(" ").map(n => n[0]).slice(0, 2).join("").toUpperCase()`,
      or "?" for an empty name; `upper` is the per-character `toUpperCase`. */
  function Initials(name: string, upper: char -> char): (r: string)
    ensures name == "" ==> r == "?"
    ensures name != "" ==> |r| <= 2
  {
    if name == "" then "?"
    else
      var heads := Heads(Split(name, ' '));
      var firstTwo := heads[..Min(2, |heads|)];
      assert |Join(firstTwo, "")| <= 2 by {
        if |firstTwo| == 2 {
          assert firstTwo[1..] == [firstTwo[1]];
        }
      }
      MapChars(Join(firstTwo, ""), upper)
  }

  /** The initials of a non-empty name are the uppercased first characters
      of its first two `split(" ")` tokens, an empty token contributing
      nothing. */
  lemma InitialsOfFirstTwoTokens(name: string, upper: char -> char)
    requires name != ""
    ensures var tokens := Split(name, ' ');
      Initials(name, upper)
        == MapChars(Head(tokens[0]) + (if |tokens| > 1 then Head(tokens[1]) else ""), upper)
  {
    var tokens := Split(name, ' ');
    var heads := Heads(tokens);
    var firstTwo := heads[..Min(2, |heads|)];
    if |tokens| > 1 {
      assert firstTwo == [Head(tokens[0]), Head(tokens[1])];
      assert firstTwo[1..] == [Head(tokens[1])];
      assert Join(firstTwo, "") == Head(tokens[0]) + "" + Head(tokens[1]);
    } else {
      assert firstTwo == [Head(tokens[0])];
    }
  }

  /** A one-word name such as "Sara" gets its first letter, uppercased. */
  lemma InitialsOfOneWord(name: string, upper: char -> char)
    requires name != "" && ' ' !in name
    ensures Initials(name, upper) == [upper(name[0])]
  {
    SplitWithoutSeparator(name, ' ');
    InitialsOfFirstTwoTokens(name, upper);
  }

  /** A leading space makes an empty first token: " Ali" gets only "A". */
  lemma InitialsAfterLeadingSpace(rest: string, upper: char -> char)
    requires |rest| > 0 && rest[0] != ' '
    ensures Initials(" " + rest, upper) == [upper(rest[0])]
  {
    SplitAfterWord("", ' ', rest);
    assert "" + [' '] + rest == " " + rest;
    SplitFirstPiece(rest, ' ');
    InitialsOfFirstTwoTokens(" " + rest, upper);
  }

  /** Two spaces make an empty second token: "Ali  Khan" gets only "A". */
  lemma InitialsAfterDoubleSpace(first: string, rest: string, upper: char -> char)
    requires |first| > 0 && ' ' !in first
    ensures Initials(first + "  " + rest, upper) == [upper(first[0])]
  {
    SplitAfterWord(first, ' ', " " + rest);
    assert first + [' '] + (" " + rest) == first + "  " + rest;
    SplitAfterWord("", ' ', rest);
    assert "" + [' '] + rest == " " + rest;
    InitialsOfFirstTwoTokens(first + "  " + rest, upper);
  }

  /** A name that starts with a letter gets that letter, uppercased, first. */
  lemma InitialsStartWithFirstLetter(name: string, upper: char -> char)
    requires |name| > 0 && name[0] != ' '
    ensures |Initials(name, upper)| >= 1 && Initials(name, upper)[0] == upper(name[0])
  {
    SplitFirstPiece(name, ' ');
    var heads := Heads(Split(name, ' '));
    var firstTwo := heads[..Min(2, |heads|)];
    assert firstTwo[0] == [name[0]];
    if |firstTwo| == 2 {
      assert Join(firstTwo, "") == firstTwo[0] + "" + Join(firstTwo[1..], "");
    }
  }

  /** "Ali Khan" gets "AK": the first letters of the first two words. */
  lemma InitialsOfTwoWords(first: string, rest: string, upper: char -> char)
    requires |first| > 0 && ' ' !in first
    requires |rest| > 0 && rest[0] != ' '
    ensures Initials(first + " " + rest, upper) == [upper(first[0]), upper(rest[0])]
  {
    var name := first + " " + rest;
    SplitAfterWord(first, ' ', rest);
    assert Split(name, ' ') == [first] + Split(rest, ' ');
    SplitFirstPiece(rest, ' ');
    var heads := Heads(Split(name, ' '));
    var firstTwo := heads[..2];
    assert firstTwo == [[first[0]], [rest[0]]];
    assert firstTwo[1..] == [[rest[0]]];
    assert Join(firstTwo, "") == [first[0]] + "" + [rest[0]];
    assert Join(firstTwo, "") == [first[0], rest[0]];
  }

  /** A name of spaces only is truthy but yields empty initials. */
  lemma BlankNameHasNoInitials(name: string, upper: char -> char)
    requires |name| > 0 && forall i :: 0 <= i < |name| ==> name[i] == ' '
    ensures Initials(name, upper) == ""
  {
    SplitOfSeparators(name, ' ');
    var heads := Heads(Split(name, ' '));
    var firstTwo := heads[..Min(2, |heads|)];
    assert forall i :: 0 <= i < |firstTwo| ==> firstTwo[i] == "";
    if |firstTwo| == 2 {
      assert firstTwo[1..] == [""];
      assert Join(firstTwo, "") == "" + "" + "";
    }
    assert Join(firstTwo, "") == "";
  }

  /** `subjectColors[subjects[0]] || subjectColors.default`. */
  function MarkerColor(subjects: seq<string>): (c: string)
    ensures c in SubjectColors.Values
    ensures c == DefaultColor <==> |subjects| == 0 || subjects[0] !in NamedSubjects
    ensures |subjects| > 0 && subjects[0] in NamedSubjects ==> c == SubjectColors[subjects[0]]
  {
    if |subjects| > 0 && subjects[0] in SubjectColors && SubjectColors[subjects[0]] != "" then
      SubjectColors[subjects[0]]
    else
      SubjectColors["default"]
  }

  /** The marker of one ranked tutor, or nothing (React skips `null`). */
  function MarkerFor(r: Ranked, upper: char -> char): (m: Option<Marker>)
    ensures m.Some? <==> Locatable(r)
    ensures m.Some? ==> m.value.position == LocatedPoint(r).value && m.value.id == r.tutor.id
    ensures m.Some? ==> m.value.color == MarkerColor(r.tutor.subjects)
    ensures m.Some? ==> m.value.initials == Initials(r.tutor.name, upper)
  {
    match LocatedPoint(r)
    case None => None
    case Some(p) => Some(Marker(r.tutor.id, p, MarkerColor(r.tutor.subjects), Initials(r.tutor.name, upper)))
  }

  /** The tutor markers, in ranked order. */
  function Markers(filtered: seq<Ranked>, upper: char -> char): (ms: seq<Marker>)
    ensures |ms| <= |filtered|
    ensures forall k :: 0 <= k < |ms| ==>
      exists i :: 0 <= i < |filtered| && MarkerFor(filtered[i], upper) == Some(ms[k])
    decreases |filtered|
  {
    if |filtered| == 0 then []
    else
      (match MarkerFor(filtered[0], upper)
       case Some(m) => [m]
       case None => [])
      + Markers(filtered[1..], upper)
  }

  /** The markers sit exactly at the teacher points, one for one: both use
      the same finite check. */
  lemma {:induction false} MarkersMatchPoints(filtered: seq<Ranked>, upper: char -> char)
    ensures |Markers(filtered, upper)| == |TeacherPoints(filtered)|
    ensures forall i :: 0 <= i < |Markers(filtered, upper)| ==>
      Markers(filtered, upper)[i].position == TeacherPoints(filtered)[i]
    decreases |filtered|
  {
    if |filtered| > 0 {
      MarkersMatchPoints(filtered[1..], upper);
    }
  }

  lemma {:induction false} LocatableTutorHasMarker(filtered: seq<Ranked>, upper: char -> char, i: nat)
    requires i < |filtered| && Locatable(filtered[i])
    ensures MarkerFor(filtered[i], upper).value in Markers(filtered, upper)
    decreases i
  {
    if i > 0 {
      LocatableTutorHasMarker(filtered[1..], upper, i - 1);
    }
  }

  /** The markers are drawn from the whole list the map section is given,
      not from the list window: every tutor the window shows, if its
      coordinates are finite, has a marker. */
  lemma ShownTutorsAreOnTheMap(filtered: seq<Ranked>, visibleCount: nat, upper: char -> char)
    ensures forall i :: 0 <= i < |Window(filtered, visibleCount)| && Locatable(filtered[i]) ==>
      MarkerFor(filtered[i], upper).value in Markers(filtered, upper)
  {
    forall i | 0 <= i < |Window(filtered, visibleCount)| && Locatable(filtered[i])
      ensures MarkerFor(filtered[i], upper).value in Markers(filtered, upper)
    {
      LocatableTutorHasMarker(filtered, upper, i);
    }
  }
}
