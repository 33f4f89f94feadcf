/** Identity clusters: a primary row and the secondary rows linked to it,
    and the invariants the stored rows are meant to keep. */
module Clusters {
  import opened Wrappers
  import opened ContactEntity
  import opened ContactStore

  /** The id of the primary a row belongs to: its own id when it links to
      nothing, otherwise the id it links to. */
  function ClusterId(c: Contact): nat
  {
    match c.linkedId
    case None => c.id
    case Some(p) => p
  }

  /** A row is primary exactly when its `linkedId` is null. */
  predicate PrecedenceMatchesLink(s: Store)
  {
    forall k | k in s.rows :: (s.rows[k].linkPrecedence == Primary <==> s.rows[k].linkedId.None?)
  }

  /** Every `linkedId` names a stored primary row, so no link chains exist. */
  predicate LinksReachPrimaries(s: Store)
  {
    forall k | k in s.rows && s.rows[k].linkedId.Some? ::
      s.rows[k].linkedId.value in s.rows && s.rows[s.rows[k].linkedId.value].linkPrecedence == Primary
  }

  /** The store invariant: well-formed, precedence agrees with the link, and
      every cluster is a star of depth at most one. */
  predicate Valid(s: Store)
  {
    WellFormed(s) && PrecedenceMatchesLink(s) && LinksReachPrimaries(s)
  }

  /** Rows that carry the same email, or the same phone number, belong to the
      same cluster. */
  predicate ValuesClustered(s: Store)
  {
    forall f, j, k | j in s.rows && k in s.rows && FieldOf(s.rows[j], f).Some? && FieldOf(s.rows[j], f) == FieldOf(s.rows[k], f) ::
      ClusterId(s.rows[j]) == ClusterId(s.rows[k])
  }

  /** After a request for value `v` of field `f`, the store holds `v` and every
      row holding it belongs to the cluster of `anchor`. */
  predicate Owns(s: Store, f: Field, v: string, anchor: Contact)
  {
    && HasMatch(s, FieldIs(f, v))
    && forall k | k in s.rows && FieldOf(s.rows[k], f) == Some(v) :: ClusterId(s.rows[k]) == ClusterId(anchor)
  }

  /** Every row was created no earlier than the primary of its cluster. */
  predicate PrimaryIsEarliest(s: Store)
  {
    forall k | k in s.rows && ClusterId(s.rows[k]) in s.rows ::
      s.rows[ClusterId(s.rows[k])].createdAt <= s.rows[k].createdAt
  }

  /** The clock reads no earlier than any stored creation time. */
  predicate ClockAhead(s: Store, now: int)
  {
    forall k | k in s.rows :: s.rows[k].createdAt <= now
  }

  /** On a valid store, the row a cluster id names is that cluster's primary. */
  lemma ClusterPrimary(s: Store, c: Contact)
    requires Valid(s) && IsRow(s, c)
    ensures ClusterId(c) in s.rows
    ensures s.rows[ClusterId(c)].linkPrecedence == Primary && s.rows[ClusterId(c)].linkedId.None?
    ensures ClusterId(s.rows[ClusterId(c)]) == ClusterId(c)
    ensures 1 <= ClusterId(c)
    ensures c.linkPrecedence == Primary <==> ClusterId(c) == c.id
  {
  }
}
