/** Tutors: the loosely typed records of the tutor-listing service and the
    canonical tutor the directory works with, and the normaliser between
    them (TeacherDirectory.jsx, the `res.data.map` body). */
module Tutors {
  import opened Wrappers
  import opened JsNumber

  /** The fallback coordinate, Lahore. */
  const FallbackLat: real := 31.5204
  const FallbackLng: real := 74.3587

  /** A point on the map, as `[lat, lng]`. */
  datatype Point = Point(lat: real, lng: real)

  /** Where the viewer is taken to be until the browser reports a position. */
  const DefaultViewer: Point := Point(FallbackLat, FallbackLng)

  datatype Coords = Coords(lat: Num, lng: Num)

  /** A canonical tutor. `experience` keeps whatever truthy value the record
      carried, as the source does. */
  datatype Tutor = Tutor(
    id: string,
    name: string,
    city: string,
    subjects: seq<string>,
    bio: string,
    experience: JsValue,
    qualification: string,
    thumbnail: string,
    phone: string,
    verified: bool,
    location: Coords)

  /** A record of the tutor-listing service. Text fields are absent or
      strings; `altId` is the record's `_id`. */
  datatype RawRecord = RawRecord(
    id: Option<string>,
    altId: Option<string>,
    name: Option<string>,
    city: Option<string>,
    subjects: Option<seq<string>>,
    bio: Option<string>,
    experience: JsValue,
    qualification: Option<string>,
    thumbnail: Option<string>,
    phone: Option<string>,
    verified: JsValue,
    latitude: JsValue,
    longitude: JsValue)

  /** `x || d` for a field that is absent or a string. */
  function TextOr(x: Option<string>, d: string): string {
    if x.Some? && x.value != "" then x.value else d
  }

  /** `Number(x) || fallback`: the coerced value unless it is NaN or 0. */
  function Coordinate(x: JsValue, fallback: real, numberOfText: string -> Num): (n: Num)
    ensures NumTruthy(ToNumber(x, numberOfText)) ==> n == ToNumber(x, numberOfText)
    ensures !NumTruthy(ToNumber(x, numberOfText)) ==> n == Finite(fallback)
    ensures fallback != 0.0 ==> NumTruthy(n)
  {
    NumOr(ToNumber(x, numberOfText), Finite(fallback))
  }

  /** One record to one tutor. `freshId` stands for the `Math.random()`
      value used when the record has neither `id` nor `_id`. */
  function NormaliseRecord(t: RawRecord, freshId: string, numberOfText: string -> Num): (r: Tutor)
    ensures r.verified <==> t.verified == Text("Yes")
    ensures r.name == t.name.GetOr("") && r.city == t.city.GetOr("")
    ensures r.bio == t.bio.GetOr("") && r.qualification == t.qualification.GetOr("")
    ensures r.thumbnail == t.thumbnail.GetOr("") && r.phone == t.phone.GetOr("")
    ensures r.subjects == t.subjects.GetOr([])
    ensures Truthy(t.experience) ==> r.experience == t.experience
    ensures !Truthy(t.experience) ==> r.experience == Number(Finite(0.0))
    ensures r.id in {t.id.GetOr(""), t.altId.GetOr(""), freshId}
    ensures NumTruthy(r.location.lat) && NumTruthy(r.location.lng)
  {
    Tutor(
      id := TextOr(t.id, TextOr(t.altId, freshId)),
      name := TextOr(t.name, ""),
      city := TextOr(t.city, ""),
      subjects := if t.subjects.Some? then t.subjects.value else [],
      bio := TextOr(t.bio, ""),
      experience := ValueOr(t.experience, Number(Finite(0.0))),
      qualification := TextOr(t.qualification, ""),
      thumbnail := TextOr(t.thumbnail, ""),
      phone := TextOr(t.phone, ""),
      verified := t.verified == Text("Yes"),
      location := Coords(
        Coordinate(t.latitude, FallbackLat, numberOfText),
        Coordinate(t.longitude, FallbackLng, numberOfText)))
  }

  /** The whole response, record by record. */
  function Normalise(raws: seq<RawRecord>, freshId: nat -> string, numberOfText: string -> Num): (ts: seq<Tutor>)
    ensures |ts| == |raws|
    ensures forall i :: 0 <= i < |raws| ==> ts[i] == NormaliseRecord(raws[i], freshId(i), numberOfText)
  {
    seq(|raws|, i requires 0 <= i < |raws| => NormaliseRecord(raws[i], freshId(i), numberOfText))
  }

  /** A latitude that coerces to NaN or 0 falls back to the default city's;
      any other coerced value, infinite ones included, is kept. */
  lemma CoordinateFallback(t: RawRecord, freshId: string, numberOfText: string -> Num)
    ensures var n := ToNumber(t.latitude, numberOfText);
      NormaliseRecord(t, freshId, numberOfText).location.lat
        == (if n == NaN || n == Finite(0.0) then Finite(FallbackLat) else n)
    ensures var n := ToNumber(t.longitude, numberOfText);
      NormaliseRecord(t, freshId, numberOfText).location.lng
        == (if n == NaN || n == Finite(0.0) then Finite(FallbackLng) else n)
  {
  }

  /** A missing, `null` or `false` coordinate becomes the fallback. */
  lemma MissingCoordinateFallsBack(t: RawRecord, freshId: string, numberOfText: string -> Num)
    requires t.latitude in {Undefined, Null, Bool(false), Number(NaN), Number(Finite(0.0))}
    ensures NormaliseRecord(t, freshId, numberOfText).location.lat == Finite(FallbackLat)
  {
  }

  /** The normaliser does not make coordinates finite: a normalised
      coordinate is infinite exactly when the record's coerces to an infinity. */
  lemma InfinityIsKept(t: RawRecord, freshId: string, numberOfText: string -> Num)
    ensures var r := NormaliseRecord(t, freshId, numberOfText);
      (r.location.lat.Finite? <==> !ToNumber(t.latitude, numberOfText).PosInf? && !ToNumber(t.latitude, numberOfText).NegInf?)
      && (r.location.lng.Finite? <==> !ToNumber(t.longitude, numberOfText).PosInf? && !ToNumber(t.longitude, numberOfText).NegInf?)
  {
  }

  /** Only the exact string "Yes" marks a tutor verified: not `true`, not "yes". */
  lemma VerifiedOnlyForExactYes(t: RawRecord, freshId: string, numberOfText: string -> Num)
    requires t.verified in {Bool(true), Text("yes"), Text("YES"), Text("Yes "), Undefined}
    ensures !NormaliseRecord(t, freshId, numberOfText).verified
  {
  }

  /** The record's own `id` wins, then `_id`, then the generated one. */
  lemma IdPrecedence(t: RawRecord, freshId: string, numberOfText: string -> Num)
    ensures var r := NormaliseRecord(t, freshId, numberOfText);
      && (t.id.Some? && t.id.value != "" ==> r.id == t.id.value)
      && (t.id.GetOr("") == "" && t.altId.Some? && t.altId.value != "" ==> r.id == t.altId.value)
      && (t.id.GetOr("") == "" && t.altId.GetOr("") == "" ==> r.id == freshId)
  {
  }
}
