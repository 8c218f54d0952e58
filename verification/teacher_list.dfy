/** What the tutor list shows (TeacherList.jsx): placeholders while loading,
    the "No tutors found" message for an empty ranking, otherwise one card per
    tutor of the visible window, each with its two expansion flags. */
module TeacherList {
  import opened Ranking
  import opened Pagination
  import opened Toggles

  datatype Card = Card(entry: Ranked, bioExpanded: bool, subjectsExpanded: bool)

  datatype ListView =
    | Loading(placeholders: nat)
    | NoTutorsFound
    | Grid(cards: seq<Card>)

  /** `<TeacherCard showMoreBio={!!showMoreBio[t.id]} showMoreSubjects={!!showMoreSubjects[t.id]} />`. */
  function CardFor(r: Ranked, showMoreBio: Flags, showMoreSubjects: Flags): Card {
    Card(r, Flag(showMoreBio, r.tutor.id), Flag(showMoreSubjects, r.tutor.id))
  }

  function Cards(rs: seq<Ranked>, showMoreBio: Flags, showMoreSubjects: Flags): (cs: seq<Card>)
    ensures |cs| == |rs|
    decreases |rs|
  {
    if |rs| == 0 then []
    else [CardFor(rs[0], showMoreBio, showMoreSubjects)] + Cards(rs[1..], showMoreBio, showMoreSubjects)
  }

  function ListViewOf(loading: bool, filtered: seq<Ranked>, visibleCount: nat,
                      showMoreBio: Flags, showMoreSubjects: Flags): (v: ListView)
    ensures v.Loading? <==> loading
    ensures loading ==> v.placeholders == visibleCount
    ensures v.NoTutorsFound? <==> !loading && |filtered| == 0
    ensures v.Grid? ==> |v.cards| == Min(visibleCount, |filtered|)
  {
    if loading then Loading(visibleCount)
    else if |filtered| == 0 then NoTutorsFound
    else Grid(Cards(Window(filtered, visibleCount), showMoreBio, showMoreSubjects))
  }

  lemma {:induction false} CardsAt(rs: seq<Ranked>, showMoreBio: Flags, showMoreSubjects: Flags, i: nat)
    requires i < |rs|
    ensures Cards(rs, showMoreBio, showMoreSubjects)[i] == CardFor(rs[i], showMoreBio, showMoreSubjects)
    decreases i
  {
    if i > 0 {
      CardsAt(rs[1..], showMoreBio, showMoreSubjects, i - 1);
    }
  }

  /** The cards show the ranked tutors from the first on, in ranked order,
      each expanded exactly when its id's flag is set. */
  lemma GridShowsRankedPrefix(loading: bool, filtered: seq<Ranked>, visibleCount: nat,
                              showMoreBio: Flags, showMoreSubjects: Flags)
    ensures var v := ListViewOf(loading, filtered, visibleCount, showMoreBio, showMoreSubjects);
      v.Grid? ==> forall i :: 0 <= i < |v.cards| ==>
        && v.cards[i].entry == filtered[i]
        && (v.cards[i].bioExpanded <==> filtered[i].tutor.id in showMoreBio && showMoreBio[filtered[i].tutor.id])
        && (v.cards[i].subjectsExpanded <==> filtered[i].tutor.id in showMoreSubjects && showMoreSubjects[filtered[i].tutor.id])
  {
    var v := ListViewOf(loading, filtered, visibleCount, showMoreBio, showMoreSubjects);
    if v.Grid? {
      var w := Window(filtered, visibleCount);
      forall i | 0 <= i < |v.cards|
        ensures v.cards[i] == CardFor(filtered[i], showMoreBio, showMoreSubjects)
      {
        CardsAt(w, showMoreBio, showMoreSubjects, i);
      }
    }
  }

  /** Toggling a tutor's bio flips the bio flag of that tutor's cards and of
      no other card, and leaves every card's subject flag alone. */
  lemma ToggleBioChangesOnlyThatCard(filtered: seq<Ranked>, visibleCount: nat,
                                     showMoreBio: Flags, showMoreSubjects: Flags, id: string)
    ensures var before := ListViewOf(false, filtered, visibleCount, showMoreBio, showMoreSubjects);
      var after := ListViewOf(false, filtered, visibleCount, Toggle(showMoreBio, id), showMoreSubjects);
      before.Grid? ==> (
        && after.Grid? && |after.cards| == |before.cards|
        && forall i :: 0 <= i < |before.cards| ==>
          && after.cards[i].entry == before.cards[i].entry
          && after.cards[i].subjectsExpanded == before.cards[i].subjectsExpanded
          && (after.cards[i].bioExpanded != before.cards[i].bioExpanded <==> before.cards[i].entry.tutor.id == id))
  {
    var before := ListViewOf(false, filtered, visibleCount, showMoreBio, showMoreSubjects);
    var after := ListViewOf(false, filtered, visibleCount, Toggle(showMoreBio, id), showMoreSubjects);
    if before.Grid? {
      var w := Window(filtered, visibleCount);
      forall i | 0 <= i < |before.cards|
        ensures after.cards[i].entry == before.cards[i].entry
        ensures after.cards[i].subjectsExpanded == before.cards[i].subjectsExpanded
        ensures after.cards[i].bioExpanded != before.cards[i].bioExpanded <==> before.cards[i].entry.tutor.id == id
      {
        CardsAt(w, showMoreBio, showMoreSubjects, i);
        CardsAt(w, Toggle(showMoreBio, id), showMoreSubjects, i);
        if w[i].tutor.id != id {
          ToggleLeavesOthers(showMoreBio, id, w[i].tutor.id);
        }
      }
    }
  }

  /** Toggling a tutor's subject list flips the subject flag of that tutor's
      cards and of no other card, and leaves every card's bio flag alone. */
  lemma ToggleSubjectsChangesOnlyThatCard(filtered: seq<Ranked>, visibleCount: nat,
                                          showMoreBio: Flags, showMoreSubjects: Flags, id: string)
    ensures var before := ListViewOf(false, filtered, visibleCount, showMoreBio, showMoreSubjects);
      var after := ListViewOf(false, filtered, visibleCount, showMoreBio, Toggle(showMoreSubjects, id));
      before.Grid? ==> (
        && after.Grid? && |after.cards| == |before.cards|
        && forall i :: 0 <= i < |before.cards| ==>
          && after.cards[i].entry == before.cards[i].entry
          && after.cards[i].bioExpanded == before.cards[i].bioExpanded
          && (after.cards[i].subjectsExpanded != before.cards[i].subjectsExpanded <==> before.cards[i].entry.tutor.id == id))
  {
    var before := ListViewOf(false, filtered, visibleCount, showMoreBio, showMoreSubjects);
    var after := ListViewOf(false, filtered, visibleCount, showMoreBio, Toggle(showMoreSubjects, id));
    if before.Grid? {
      var w := Window(filtered, visibleCount);
      forall i | 0 <= i < |before.cards|
        ensures after.cards[i].entry == before.cards[i].entry
        ensures after.cards[i].bioExpanded == before.cards[i].bioExpanded
        ensures after.cards[i].subjectsExpanded != before.cards[i].subjectsExpanded <==> before.cards[i].entry.tutor.id == id
      {
        CardsAt(w, showMoreBio, showMoreSubjects, i);
        CardsAt(w, showMoreBio, Toggle(showMoreSubjects, id), i);
        if w[i].tutor.id != id {
          ToggleLeavesOthers(showMoreSubjects, id, w[i].tutor.id);
        }
      }
    }
  }
}
