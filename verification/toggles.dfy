/** The per-tutor "show more" flags: objects from tutor id to boolean,
    updated by `prev => ({ ...prev, [id]: !prev[id] })` (TeacherDirectory.jsx)
    and read as `!!map[id]` (TeacherList.jsx). */
module Toggles {

  type Flags = map<string, bool>

  /** `!!m[k]`: an absent id reads as false. */
  function Flag(m: Flags, k: string): bool {
    k in m && m[k]
  }

  /** `{ ...m, [k]: !m[k] }`. */
  function Toggle(m: Flags, k: string): (r: Flags)
    ensures Flag(r, k) == !Flag(m, k)
    ensures r.Keys == m.Keys + {k}
    ensures forall j :: j in m && j != k ==> r[j] == m[j]
  {
    m[k := !Flag(m, k)]
  }

  /** Toggling one id leaves every other id's flag as it was. */
  lemma ToggleLeavesOthers(m: Flags, k: string, j: string)
    requires j != k
    ensures Flag(Toggle(m, k), j) == Flag(m, j)
  {
  }

  /** Toggling twice restores the flag; the map itself comes back unless the
      id was absent, in which case it is now present as false. */
  lemma ToggleTwice(m: Flags, k: string)
    ensures Flag(Toggle(Toggle(m, k), k), k) == Flag(m, k)
    ensures Toggle(Toggle(m, k), k) == if k in m then m else m[k := false]
  {
  }
}
