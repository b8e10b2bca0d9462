/**
 * The credential data model of provenance/helpers.py: subjects, credentials,
 * presentations, and the constructor that issues a credential from a trust
 * framework (a map from role names to the rule each role is granted).
 */
module Helpers {
  import opened Wrappers
  import opened Sgl

  /** The entity a credential is issued to, with the rule granted to it. */
  datatype Subject = Subject(id: Id, role: Role, permission: Rule)
  {
    /** The subject as a principal: its id and the single role it holds. */
    function IntoPrincipal(): Principal {
      Principal(id, [role])
    }
  }

  /**
   * One link of a delegation chain. `id` is the issuer; `provenance` embeds
   * the parent credential by value, so a chain is always finite and acyclic.
   */
  datatype Credential = Credential(id: Id, provenance: Option<Credential>, subject: Subject)
  {
    /** The issuer is the subject itself. */
    predicate IsSelfSigned() {
      id == subject.id
    }
  }

  /** The leaf credentials submitted together for one decision, in order. */
  datatype Presentation = Presentation(credentials: seq<Credential>)

  /** Why the constructor refuses to issue. */
  datatype CreateError =
    | UnknownRole               // the role is not a key of the trust framework
    | NotSelfIssued             // no parent, but the issuer is not the subject
    | IssuerNotParentSubject    // the issuer is not the subject of the parent

  /**
   * Issue a credential giving `subject` the rule the trust framework grants
   * to `role`, optionally delegated from the parent credential `prov`.
   */
  function CreateCredential(issuer: Id, subject: Id, role: Role,
                            framework: map<Role, Rule>,
                            prov: Option<Credential>): (r: Result<Credential, CreateError>)
    // an unknown role is refused before anything else is looked at
    ensures role !in framework ==> r == Failure(UnknownRole)
    // what an issued credential holds
    ensures r.Success? ==>
      && role in framework
      && r.value.id == issuer
      && r.value.subject.id == subject
      && r.value.subject.role == role
      && r.value.subject.permission == framework[role]
      && r.value.provenance == prov
    // a root must be self-issued
    ensures prov.None? ==> (r.Success? <==> role in framework && issuer == subject)
    ensures prov.None? && r.Success? ==> r.value.IsSelfSigned()
    // a delegate must be issued by the parent's subject
    ensures prov.Some? ==> (r.Success? <==> role in framework && issuer == prov.value.subject.id)
  {
    if role !in framework then
      Failure(UnknownRole)
    else
      var credential := Credential(issuer, prov, Subject(subject, role, framework[role]));
      if prov.None? then
        if credential.id == credential.subject.id then Success(credential) else Failure(NotSelfIssued)
      else
        if credential.id == prov.value.subject.id then Success(credential) else Failure(IssuerNotParentSubject)
  }

  /**
   * `c` and each of its ancestors are exactly what CreateCredential returns
   * for their own fields and parent, each against a trust framework of its
   * own: the credential was built only through the constructor.
   */
  ghost predicate Constructed(c: Credential)
    decreases c
  {
    && (exists framework: map<Role, Rule> ::
          CreateCredential(c.id, c.subject.id, c.subject.role, framework, c.provenance) == Success(c))
    && (c.provenance.Some? ==> Constructed(c.provenance.value))
  }
}
