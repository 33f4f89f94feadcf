/** The contact row: the one entity of the identity service. */
module ContactEntity {
  import opened Wrappers

  /** The two values of the `linkPrecedence` enum column. */
  datatype LinkPrecedence = Primary | Secondary

  /** The value the `linkPrecedence` column takes when a row is created without one. */
  const DefaultPrecedence: LinkPrecedence := Primary

  /** One contact row. `createdAt` is an integer timestamp; the ORM-managed
      `updatedAt` and `deletedAt` columns are not modelled. */
  datatype Contact = Contact(
    id: nat,
    phoneNumber: Option<string>,
    email: Option<string>,
    linkedId: Option<nat>,
    linkPrecedence: LinkPrecedence,
    createdAt: int)

  /** The two searchable columns. */
  datatype Field = Email | Phone

  function FieldOf(c: Contact, f: Field): Option<string>
  {
    match f
    case Email => c.email
    case Phone => c.phoneNumber
  }

  /** A nullable id read as a JavaScript condition: null and 0 are both false. */
  function IsSet(n: Option<nat>): (b: bool)
    ensures n.None? ==> !b
    ensures n == Some(0) ==> !b
    ensures n.Some? && n.value > 0 ==> b
  {
    n.Some? && n.value != 0
  }

  /** The row that `create` followed by `save` produces: every column as given,
      and the column default when no precedence is given. */
  function Build(id: nat, email: Option<string>, phoneNumber: Option<string>,
                 linkedId: Option<nat>, precedence: Option<LinkPrecedence>, createdAt: int): (c: Contact)
    ensures c.id == id && c.createdAt == createdAt && c.linkedId == linkedId
    ensures FieldOf(c, Email) == email && FieldOf(c, Phone) == phoneNumber
    ensures precedence.None? ==> c.linkPrecedence == Primary
    ensures forall p :: precedence == Some(p) ==> c.linkPrecedence == p
  {
    var p := match precedence
      case Some(p) => p
      case None => DefaultPrecedence;
    Contact(id, phoneNumber, email, linkedId, p, createdAt)
  }
}
