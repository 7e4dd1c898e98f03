/** The records the application state is made of (src/state/reducer.js):
    the venture being framed, the assumptions with their ring and quadrant,
    and the shallow-merge update applied to an assumption. JavaScript `null`
    becomes `None`; a field that may be set to `null` by an update is an
    `Option`, and a patch entry that may be absent on top of that is an
    `Option<Option<…>>`. */
module Domain {

  datatype Option<+T> = None | Some(value: T)

  /** The three assumption rings. */
  datatype Ring = Opportunity | Offering | Operation

  /** JavaScript truthiness of a string: only the empty string is falsy. */
  predicate Truthy(s: string)
  {
    s != ""
  }

  /** Truthiness of a nullable string: `null` and `""` are falsy. */
  predicate TruthyOpt(o: Option<string>)
  {
    o.Some? && o.value != ""
  }

  /** `s || fallback` for a string. */
  function Or(s: string, fallback: string): (r: string)
    ensures Truthy(s) ==> r == s
    ensures !Truthy(s) ==> r == fallback
  {
    if Truthy(s) then s else fallback
  }

  /** `o || fallback` for a nullable string. */
  function OrOpt(o: Option<string>, fallback: string): (r: string)
    ensures TruthyOpt(o) ==> r == o.value
    ensures !TruthyOpt(o) ==> r == fallback
  {
    if TruthyOpt(o) then o.value else fallback
  }

  /** The venture being framed; `stage` is `null` until one is chosen. */
  datatype Venture = Venture(name: string, description: string, stage: Option<string>)

  /** One assumption. `position` is a pair of coordinates that nothing in the
      core ever sets to anything but `null`. */
  datatype Assumption = Assumption(
    id: string,
    text: string,
    ring: Ring,
    quadrant: Option<string>,
    position: Option<(int, int)>,
    selectedApproach: Option<string>,
    promptStyle: string,
    createdAt: int)

  /** The `updates` object of `UPDATE_ASSUMPTION`: for each field, absent
      (`None`) or the value to write. */
  datatype Patch = Patch(
    id: Option<string>,
    text: Option<string>,
    ring: Option<Ring>,
    quadrant: Option<Option<string>>,
    position: Option<Option<(int, int)>>,
    selectedApproach: Option<Option<string>>,
    promptStyle: Option<string>,
    createdAt: Option<int>)

  const NoChange: Patch := Patch(None, None, None, None, None, None, None, None)

  /** `{ quadrant: q }` */
  function QuadrantPatch(q: Option<string>): Patch
  {
    NoChange.(quadrant := Some(q))
  }

  /** `{ text: t }` */
  function TextPatch(t: string): Patch
  {
    NoChange.(text := Some(t))
  }

  function Pick<T>(update: Option<T>, current: T): T
  {
    if update.Some? then update.value else current
  }

  /** `{ ...a, ...updates }`: every field present in the patch overrides the
      assumption's field, every absent one is kept. */
  function Merge(a: Assumption, p: Patch): (r: Assumption)
    ensures p.id.Some? ==> r.id == p.id.value
    ensures p.id.None? ==> r.id == a.id
    ensures p.text.Some? ==> r.text == p.text.value
    ensures p.text.None? ==> r.text == a.text
    ensures p.ring.Some? ==> r.ring == p.ring.value
    ensures p.ring.None? ==> r.ring == a.ring
    ensures p.quadrant.Some? ==> r.quadrant == p.quadrant.value
    ensures p.quadrant.None? ==> r.quadrant == a.quadrant
    ensures p.position.Some? ==> r.position == p.position.value
    ensures p.position.None? ==> r.position == a.position
    ensures p.selectedApproach.Some? ==> r.selectedApproach == p.selectedApproach.value
    ensures p.selectedApproach.None? ==> r.selectedApproach == a.selectedApproach
    ensures p.promptStyle.Some? ==> r.promptStyle == p.promptStyle.value
    ensures p.promptStyle.None? ==> r.promptStyle == a.promptStyle
    ensures p.createdAt.Some? ==> r.createdAt == p.createdAt.value
    ensures p.createdAt.None? ==> r.createdAt == a.createdAt
    ensures p == NoChange ==> r == a
  {
    Assumption(
      Pick(p.id, a.id),
      Pick(p.text, a.text),
      Pick(p.ring, a.ring),
      Pick(p.quadrant, a.quadrant),
      Pick(p.position, a.position),
      Pick(p.selectedApproach, a.selectedApproach),
      Pick(p.promptStyle, a.promptStyle),
      Pick(p.createdAt, a.createdAt))
  }

  /** Merging the same patch twice is merging it once, and a patch of one
      field touches nothing else. */
  lemma MergeIdempotent(a: Assumption, p: Patch, q: Option<string>, t: string)
    ensures Merge(Merge(a, p), p) == Merge(a, p)
    ensures Merge(a, QuadrantPatch(q)) == a.(quadrant := q)
    ensures Merge(a, TextPatch(t)) == a.(text := t)
  {
  }
}
