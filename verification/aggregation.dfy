/** The aggregation step of the identity service: gather the rows of the
    anchor's cluster and project the consolidated contact view. */
module Aggregation {
  import opened Wrappers
  import opened ContactEntity
  import opened ContactStore
  import opened Clusters

  /** The consolidated contact returned to the caller; the first field keeps
      the spelling of the response field. */
  datatype View = View(
    primaryContatctId: nat,
    emails: seq<string>,
    phoneNumbers: seq<string>,
    secondaryContactIds: seq<nat>)

  predicate NoDuplicates<T(==)>(xs: seq<T>)
  {
    forall i, j | 0 <= i < j < |xs| :: xs[i] != xs[j]
  }

  /** The values of column `f` across the rows, in row order, dropping nulls and
      empty strings as a JavaScript truthiness filter does. */
  function PresentValues(rows: seq<Contact>, f: Field): (r: seq<string>)
    ensures forall v :: v in r <==> v != "" && exists i | 0 <= i < |rows| :: FieldOf(rows[i], f) == Some(v)
  {
    if |rows| == 0 then []
    else
      var rest := PresentValues(rows[1..], f);
      assert forall v :: (exists i | 0 <= i < |rows[1..]| :: FieldOf(rows[1..][i], f) == Some(v))
                     <==> (exists i | 1 <= i < |rows| :: FieldOf(rows[i], f) == Some(v)) by {
        forall v | exists i | 1 <= i < |rows| :: FieldOf(rows[i], f) == Some(v)
          ensures exists i | 0 <= i < |rows[1..]| :: FieldOf(rows[1..][i], f) == Some(v)
        {
          var i :| 1 <= i < |rows| && FieldOf(rows[i], f) == Some(v);
          assert rows[1..][i - 1] == rows[i];
        }
      }
      match FieldOf(rows[0], f)
      case Some(v) => if v != "" then [v] + rest else rest
      case None => rest
  }

  /** Every value of `xs` exactly once, kept at its first occurrence, as
      spreading a JavaScript `Set` gives. */
  function Distinct(xs: seq<string>): (r: seq<string>)
    ensures forall x :: x in r <==> x in xs
    ensures NoDuplicates(r)
  {
    if |xs| == 0 then []
    else
      var init := Distinct(xs[..|xs| - 1]);
      assert xs == xs[..|xs| - 1] + [xs[|xs| - 1]];
      if xs[|xs| - 1] in init then init else init + [xs[|xs| - 1]]
  }

  /** The first row, in row order, whose precedence is primary, if any. */
  function FirstPrimary(rows: seq<Contact>): (r: Option<Contact>)
    ensures r.None? <==> forall i | 0 <= i < |rows| :: rows[i].linkPrecedence != Primary
    ensures r.Some? ==> exists i | 0 <= i < |rows| ::
      && rows[i] == r.value && rows[i].linkPrecedence == Primary
      && (forall j | 0 <= j < i :: rows[j].linkPrecedence != Primary)
  {
    if |rows| == 0 then None
    else if rows[0].linkPrecedence == Primary then Some(rows[0])
    else
      var rest := FirstPrimary(rows[1..]);
      if rest.Some? then
        var i :| 0 <= i < |rows[1..]| && rows[1..][i] == rest.value && rows[1..][i].linkPrecedence == Primary
          && forall j | 0 <= j < i :: rows[1..][j].linkPrecedence != Primary;
        assert rows[i + 1] == rest.value && forall j | 0 <= j < i + 1 :: rows[j].linkPrecedence != Primary by {
          forall j | 0 <= j < i + 1 ensures rows[j].linkPrecedence != Primary {
            if j > 0 { assert rows[j] == rows[1..][j - 1]; }
          }
        }
        rest
      else
        assert forall i | 1 <= i < |rows| :: rows[i].linkPrecedence != Primary by {
          forall i | 1 <= i < |rows| ensures rows[i].linkPrecedence != Primary {
            assert rows[i] == rows[1..][i - 1];
          }
        }
        None
  }

  /** The ids of the secondary rows, in row order. */
  function SecondaryIds(rows: seq<Contact>): (r: seq<nat>)
    ensures forall id :: id in r <==> exists i | 0 <= i < |rows| :: rows[i].linkPrecedence == Secondary && rows[i].id == id
    ensures (forall i, j | 0 <= i < j < |rows| :: rows[i].id != rows[j].id) ==> NoDuplicates(r)
  {
    if |rows| == 0 then []
    else
      var rest := SecondaryIds(rows[1..]);
      assert forall i | 1 <= i < |rows| :: rows[i] == rows[1..][i - 1];
      if rows[0].linkPrecedence == Secondary then
        assert (forall i, j | 0 <= i < j < |rows| :: rows[i].id != rows[j].id) ==> rows[0].id !in rest by {
          if rows[0].id in rest {
            var i :| 0 <= i < |rows[1..]| && rows[1..][i].linkPrecedence == Secondary && rows[1..][i].id == rows[0].id;
            assert rows[i + 1].id == rows[0].id;
          }
        }
        [rows[0].id] + rest
      else rest
  }

  /** The response built from the gathered rows: the first primary's id (the
      anchor's when none was gathered), the distinct emails and phone numbers,
      and the ids of the secondary rows. */
  function Project(rows: seq<Contact>, anchor: Contact): (v: View)
    ensures NoDuplicates(v.emails) && NoDuplicates(v.phoneNumbers)
    ensures forall e :: e in v.emails <==> e != "" && exists i | 0 <= i < |rows| :: rows[i].email == Some(e)
    ensures forall p :: p in v.phoneNumbers <==> p != "" && exists i | 0 <= i < |rows| :: rows[i].phoneNumber == Some(p)
    ensures forall id :: id in v.secondaryContactIds <==>
      exists i | 0 <= i < |rows| :: rows[i].linkPrecedence == Secondary && rows[i].id == id
    ensures (forall i, j | 0 <= i < j < |rows| :: rows[i].id != rows[j].id) ==> NoDuplicates(v.secondaryContactIds)
    ensures (exists i | 0 <= i < |rows| :: rows[i].linkPrecedence == Primary) ==>
      exists i | 0 <= i < |rows| :: rows[i].linkPrecedence == Primary && rows[i].id == v.primaryContatctId
    ensures (forall i | 0 <= i < |rows| :: rows[i].linkPrecedence != Primary) ==> v.primaryContatctId == anchor.id
  {
    var primary := FirstPrimary(rows);
    View(
      if primary.Some? then primary.value.id else anchor.id,
      Distinct(PresentValues(rows, Email)),
      Distinct(PresentValues(rows, Phone)),
      SecondaryIds(rows))
  }

  /** The rows the aggregation query returns for `anchor`, in ascending id order. */
  function Gather(s: Store, anchor: Contact): (r: seq<Contact>)
    requires WellFormed(s)
    ensures forall i | 0 <= i < |r| :: IsRow(s, r[i]) && Holds(r[i], InClusterOf(anchor))
    ensures forall k | k in s.rows && Holds(s.rows[k], InClusterOf(anchor)) :: s.rows[k] in r
    ensures forall i, j | 0 <= i < j < |r| :: r[i].id < r[j].id
  {
    Select(s, InClusterOf(anchor), 0)
  }
}
