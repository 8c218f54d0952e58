/** The "Load More" window over the ranked list: `visibleCount` starts at 12
    and grows by 12 (TeacherDirectory.jsx), and the list shows
    `filtered.slice(0, visibleCount)` (TeacherList.jsx). */
module Pagination {

  const InitialVisibleCount: nat := 12
  const LoadStep: nat := 12

  function Min(a: nat, b: nat): nat {
    if a <= b then a else b
  }

  /** `setVisibleCount(v => v + 12)`. */
  function LoadMore(visibleCount: nat): (v: nat)
    ensures v > visibleCount && v - visibleCount == 12
  {
    visibleCount + LoadStep
  }

  /** `!loading && visibleCount < filtered.length`: the button is shown. */
  predicate LoadMoreOffered(loading: bool, visibleCount: nat, filteredLength: nat) {
    !loading && visibleCount < filteredLength
  }

  /** `filtered.slice(0, visibleCount)`. */
  function Window<T>(filtered: seq<T>, visibleCount: nat): (w: seq<T>)
    ensures w <= filtered
    ensures |w| == Min(visibleCount, |filtered|)
  {
    filtered[..Min(visibleCount, |filtered|)]
  }

  /** The button is offered exactly when, not loading, the window hides
      some tutor. */
  lemma LoadMoreOfferedIffTutorsHidden<T>(loading: bool, visibleCount: nat, filtered: seq<T>)
    ensures LoadMoreOffered(loading, visibleCount, |filtered|)
      <==> !loading && |Window(filtered, visibleCount)| < |filtered|
  {
  }

  /** Loading more never hides a tutor that was shown: the old window is a
      prefix of the new one, which shows up to 12 more; when the button was
      offered, at least one more tutor appears. */
  lemma LoadMoreExtendsWindow<T>(filtered: seq<T>, visibleCount: nat)
    ensures LoadMore(visibleCount) > visibleCount
    ensures Window(filtered, visibleCount) <= Window(filtered, LoadMore(visibleCount))
    ensures |Window(filtered, LoadMore(visibleCount))| == Min(visibleCount + 12, |filtered|)
    ensures LoadMoreOffered(false, visibleCount, |filtered|)
      ==> |Window(filtered, LoadMore(visibleCount))| > |Window(filtered, visibleCount)|
  {
  }

  /** The visible count after `presses` clicks. */
  function AfterPresses(visibleCount: nat, presses: nat): (v: nat)
    decreases presses
  {
    if presses == 0 then visibleCount else AfterPresses(LoadMore(visibleCount), presses - 1)
  }

  /** How many clicks the button takes before it disappears. */
  function PressesToShowAll(visibleCount: nat, filteredLength: nat): nat
    decreases filteredLength - visibleCount
  {
    if visibleCount < filteredLength then 1 + PressesToShowAll(LoadMore(visibleCount), filteredLength)
    else 0
  }

  /** Clicking while the button is offered eventually shows every tutor,
      and then the button is gone; before that it is offered at every step. */
  lemma {:induction false} LoadMoreEventuallyShowsAll<T>(filtered: seq<T>, visibleCount: nat)
    ensures var n := PressesToShowAll(visibleCount, |filtered|);
      && Window(filtered, AfterPresses(visibleCount, n)) == filtered
      && !LoadMoreOffered(false, AfterPresses(visibleCount, n), |filtered|)
      && forall k :: 0 <= k < n ==> LoadMoreOffered(false, AfterPresses(visibleCount, k), |filtered|)
    decreases |filtered| - visibleCount
  {
    if visibleCount < |filtered| {
      LoadMoreEventuallyShowsAll(filtered, LoadMore(visibleCount));
      var n := PressesToShowAll(visibleCount, |filtered|);
      forall k | 0 <= k < n
        ensures LoadMoreOffered(false, AfterPresses(visibleCount, k), |filtered|)
      {
        if k > 0 {
          assert AfterPresses(visibleCount, k) == AfterPresses(LoadMore(visibleCount), k - 1);
        }
      }
    }
  }
}
