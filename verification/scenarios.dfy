/** Worked examples of the directory's behaviour, proved end to end. */
module Scenarios {
  import opened Wrappers
  import opened JsNumber
  import opened Tutors
  import opened Ranking
  import opened Pagination
  import opened Toggles
  import opened TeacherList
  import opened MapSection

  /** ASCII case mapping, enough for the examples. */
  function AsciiLower(c: char): char {
    if 'A' <= c <= 'Z' then (c as int + 32) as char else c
  }

  function AsciiUpper(c: char): char {
    if 'a' <= c <= 'z' then (c as int - 32) as char else c
  }

  const AliKhan: Tutor := Tutor(
    id := "t1", name := "Ali Khan", city := "Lahore", subjects := ["Mathematics"],
    bio := "", experience := Number(Finite(0.0)), qualification := "", thumbnail := "",
    phone := "", verified := false, location := Coords(Finite(31.5), Finite(74.3)))

  /** One tutor, no filters, viewer at the fallback: one entry whose squared
      distance is (31.5 - 31.5204)^2 + (74.3 - 74.3587)^2. */
  lemma ScenarioNoFilters()
    ensures var r := FilterTeachers([AliKhan], Query("", "", ""), DefaultViewer, AsciiLower);
      && |r| == 1
      && r[0].tutor == AliKhan
      && r[0].distance == Finite((31.5 - 31.5204) * (31.5 - 31.5204) + (74.3 - 74.3587) * (74.3 - 74.3587))
  {
    NoFiltersKeepEveryone([AliKhan], DefaultViewer, AsciiLower);
    var d := SquaredDistance(AliKhan.location, DefaultViewer);
    assert Offset(Finite(31.5), FallbackLat) == Finite(31.5 - 31.5204);
    assert Offset(Finite(74.3), FallbackLng) == Finite(74.3 - 74.3587);
    assert d == Finite((31.5 - 31.5204) * (31.5 - 31.5204) + (74.3 - 74.3587) * (74.3 - 74.3587));
    var ranked := Attach([AliKhan], DefaultViewer);
    assert ranked == [Ranked(AliKhan, d)];
    assert SortByDistance(ranked) == Insert(ranked[0], []);
  }

  /** On the map the same tutor is labelled "AK"... */
  lemma ScenarioInitials()
    ensures Initials(AliKhan.name, AsciiUpper) == "AK"
  {
    InitialsOfTwoWords("Ali", "Khan", AsciiUpper);
    assert "Ali" + " " + "Khan" == AliKhan.name;
  }

  /** ...and coloured as a Mathematics tutor. */
  lemma ScenarioColor()
    ensures MarkerColor(AliKhan.subjects) == "#1E88E5"
  {
    assert AliKhan.subjects[0] == "Mathematics";
  }

  /** The same tutor with the city filter "Karachi": nothing is ranked and
      the list shows "No tutors found". */
  lemma ScenarioUnknownCity(showMoreBio: Flags, showMoreSubjects: Flags)
    ensures FilterTeachers([AliKhan], Query("Karachi", "", ""), DefaultViewer, AsciiLower) == []
    ensures ListViewOf(false, FilterTeachers([AliKhan], Query("Karachi", "", ""), DefaultViewer, AsciiLower),
                       InitialVisibleCount, showMoreBio, showMoreSubjects) == NoTutorsFound
  {
    UnknownCityRanksNobody([AliKhan], Query("Karachi", "", ""), DefaultViewer, AsciiLower);
  }

  /** `{Name: "Sara", Verified: "No", Latitude: "abc"}` is an unverified
      tutor placed at the fallback coordinate. */
  lemma ScenarioMalformedRecord(freshId: string, numberOfText: string -> Num)
    requires numberOfText("abc") == NaN
    ensures var t := NormaliseRecord(
        RawRecord(None, None, Some("Sara"), None, None, None, Undefined, None, None, None,
                  Text("No"), Text("abc"), Undefined),
        freshId, numberOfText);
      && t.name == "Sara" && t.city == "" && t.subjects == []
      && !t.verified
      && t.location == Coords(Finite(FallbackLat), Finite(FallbackLng))
      && t.id == freshId
  {
  }

  /** Thirty ranked tutors: 12 shown with the button, then 24 with the
      button, then all 30 without it. */
  lemma ScenarioLoadMore<T>(filtered: seq<T>)
    requires |filtered| == 30
    ensures |Window(filtered, InitialVisibleCount)| == 12
      && LoadMoreOffered(false, InitialVisibleCount, |filtered|)
    ensures |Window(filtered, LoadMore(InitialVisibleCount))| == 24
      && LoadMoreOffered(false, LoadMore(InitialVisibleCount), |filtered|)
    ensures Window(filtered, LoadMore(LoadMore(InitialVisibleCount))) == filtered
      && !LoadMoreOffered(false, LoadMore(LoadMore(InitialVisibleCount)), |filtered|)
  {
  }
}
