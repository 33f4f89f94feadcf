/** The contact repository as the identity service uses it: lookups by a
    `where` condition, inserts that draw ids from a sequence, and the two
    bulk `update` calls and the entity `save` of the merge step. */
module ContactStore {
  import opened Wrappers
  import opened ContactEntity

  /** The contact table: rows keyed by id, and the next value of the id sequence. */
  datatype Store = Store(rows: map<nat, Contact>, nextId: nat)

  /** What the database itself guarantees: every row is stored under its own
      id, and ids are positive and below the next value of the sequence. */
  predicate WellFormed(s: Store)
  {
    && 1 <= s.nextId
    && forall k | k in s.rows :: s.rows[k].id == k && 1 <= k < s.nextId
  }

  /** `c` is, column for column, the row stored under its id. */
  predicate IsRow(s: Store, c: Contact)
  {
    c.id in s.rows && s.rows[c.id] == c
  }

  /** The `where` conditions the service passes to the repository. */
  datatype Where =
    | FieldIs(field: Field, value: string)
      /** The four alternatives of the aggregation query: the anchor itself,
          rows linked to it, and, when the anchor is linked, its target and the
          target's other linked rows. */
    | InClusterOf(anchor: Contact)

  predicate Holds(c: Contact, w: Where)
  {
    match w
    case FieldIs(f, v) => FieldOf(c, f) == Some(v)
    case InClusterOf(a) =>
      || c.id == a.id
      || c.linkedId == Some(a.id)
      || (IsSet(a.linkedId) && (c.id == a.linkedId.value || c.linkedId == a.linkedId))
  }

  predicate HasMatch(s: Store, w: Where)
  {
    exists k | k in s.rows :: Holds(s.rows[k], w)
  }

  /** `repository.find`: every row with id at least `from` satisfying `w`,
      each once, in ascending id order. */
  function Select(s: Store, w: Where, from: nat): (r: seq<Contact>)
    requires WellFormed(s)
    ensures forall i | 0 <= i < |r| :: IsRow(s, r[i]) && from <= r[i].id && Holds(r[i], w)
    ensures forall k | k in s.rows && from <= k && Holds(s.rows[k], w) :: s.rows[k] in r
    ensures forall i, j | 0 <= i < j < |r| :: r[i].id < r[j].id
    decreases s.nextId - from
  {
    if s.nextId <= from then []
    else
      var rest := Select(s, w, from + 1);
      if from in s.rows && Holds(s.rows[from], w) then [s.rows[from]] + rest else rest
  }

  /** `repository.findOne`: some row satisfying `w`, or null. Which row the
      database returns is not specified; `hint` names it when it matches, and
      otherwise the lowest-id match stands in for the database's pick. */
  function FindOne(s: Store, w: Where, hint: nat): (r: Option<Contact>)
    requires WellFormed(s)
    ensures r.None? <==> !HasMatch(s, w)
    ensures r.Some? ==> IsRow(s, r.value) && Holds(r.value, w)
    ensures hint in s.rows && Holds(s.rows[hint], w) ==> r == Some(s.rows[hint])
  {
    if hint in s.rows && Holds(s.rows[hint], w) then Some(s.rows[hint])
    else
      var all := Select(s, w, 0);
      if |all| == 0 then None else Some(all[0])
  }

  /** The lookup of a single row by its primary key. */
  function FindById(s: Store, id: nat): (r: Option<Contact>)
    requires WellFormed(s)
    ensures r.Some? <==> id in s.rows
    ensures r.Some? ==> IsRow(s, r.value) && r.value.id == id
  {
    if id in s.rows then Some(s.rows[id]) else None
  }

  /** A store after a write, with the entity the write returned. */
  datatype Stored = Stored(store: Store, contact: Contact)

  /** `repository.save` of a freshly created entity: the sequence supplies the
      id and the clock, passed in as `now`, supplies `createdAt`. */
  function Insert(s: Store, email: Option<string>, phoneNumber: Option<string>,
                  linkedId: Option<nat>, precedence: Option<LinkPrecedence>, now: int): (r: Stored)
    requires WellFormed(s)
    ensures WellFormed(r.store)
    ensures r.contact.id !in s.rows && IsRow(r.store, r.contact)
    ensures r.store.rows == s.rows[r.contact.id := r.contact]
    ensures r.contact.email == email && r.contact.phoneNumber == phoneNumber
    ensures r.contact.linkedId == linkedId && r.contact.createdAt == now
    ensures precedence.None? ==> r.contact.linkPrecedence == Primary
    ensures forall p :: precedence == Some(p) ==> r.contact.linkPrecedence == p
  {
    var c := Build(s.nextId, email, phoneNumber, linkedId, precedence, now);
    Stored(Store(s.rows[c.id := c], s.nextId + 1), c)
  }

  /** The bulk update keyed by id that demotes a primary: the row `id`, if
      present, becomes a secondary of `target`; no other row changes. */
  function Demote(s: Store, id: nat, target: nat): (r: Store)
    ensures r.nextId == s.nextId && r.rows.Keys == s.rows.Keys
    ensures WellFormed(s) ==> WellFormed(r)
    ensures id in s.rows ==> r.rows[id].linkedId == Some(target) && r.rows[id].linkPrecedence == Secondary
    ensures id in s.rows ==> r.rows[id] == s.rows[id].(linkedId := Some(target), linkPrecedence := Secondary)
    ensures forall k | k in s.rows && k != id :: r.rows[k] == s.rows[k]
  {
    if id in s.rows then
      Store(s.rows[id := s.rows[id].(linkedId := Some(target), linkPrecedence := Secondary)], s.nextId)
    else s
  }

  /** The bulk update keyed by link that re-points secondaries: every row
      linked to `from` is linked to `to` instead; nothing else changes. */
  function Repoint(s: Store, from: nat, to: nat): (r: Store)
    ensures r.nextId == s.nextId && r.rows.Keys == s.rows.Keys
    ensures WellFormed(s) ==> WellFormed(r)
    ensures forall k | k in s.rows && s.rows[k].linkedId == Some(from) :: r.rows[k] == s.rows[k].(linkedId := Some(to))
    ensures forall k | k in s.rows && s.rows[k].linkedId != Some(from) :: r.rows[k] == s.rows[k]
    ensures from != to ==> forall k | k in r.rows :: r.rows[k].linkedId != Some(from)
  {
    Store(map k | k in s.rows :: if s.rows[k].linkedId == Some(from) then s.rows[k].(linkedId := Some(to)) else s.rows[k], s.nextId)
  }

  /** `repository.save` of a loaded entity: the row under its id takes the
      entity's current column values. */
  function Save(s: Store, c: Contact): (r: Store)
    ensures r.nextId == s.nextId && r.rows.Keys == s.rows.Keys + {c.id}
    ensures IsRow(r, c)
    ensures WellFormed(s) && 1 <= c.id < s.nextId ==> WellFormed(r)
    ensures forall k | k in s.rows && k != c.id :: r.rows[k] == s.rows[k]
  {
    Store(s.rows[c.id := c], s.nextId)
  }
}
