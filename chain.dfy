/**
 * The delegation-chain engine of provenance/chain.py: extracting the chain
 * of a leaf credential, validating it link by link, and deciding whether a
 * presentation of leaf credentials satisfies a rule.
 */
module Chain {
  import opened Wrappers
  import opened Sgl
  import opened Helpers

  // ---------------------------------------------------------------------
  // Chain extraction
  // ---------------------------------------------------------------------

  /** The number of ancestors of a credential. */
  function Depth(c: Credential): nat
    decreases c
  {
    match c.provenance
    case None => 0
    case Some(p) => 1 + Depth(p)
  }

  /** The ancestors of a credential, nearest first: what the inner decode appends. */
  function Ancestors(c: Credential): seq<Credential>
    decreases c
  {
    match c.provenance
    case None => []
    case Some(p) => [p] + Ancestors(p)
  }

  /** The chain of a credential, root first and the credential itself last. */
  function ProvenanceChain(c: Credential): seq<Credential>
    decreases c
  {
    match c.provenance
    case None => [c]
    case Some(p) => ProvenanceChain(p) + [c]
  }

  /**
   * The extracted chain is non-empty, has the credential itself last and a
   * root without provenance first, is one longer than the depth, and each
   * element is the embedded parent of the next.
   */
  lemma {:induction false} ChainShape(c: Credential)
    ensures var chain := ProvenanceChain(c);
      && |chain| == Depth(c) + 1
      && chain[|chain| - 1] == c
      && chain[0].provenance.None?
      && forall i :: 0 <= i < |chain| - 1 ==> chain[i + 1].provenance == Some(chain[i])
    decreases c
  {
    match c.provenance
    case None =>
    case Some(p) =>
      ChainShape(p);
      var chain, prefix := ProvenanceChain(c), ProvenanceChain(p);
      assert chain == prefix + [c];
      forall i | 0 <= i < |chain| - 1
        ensures chain[i + 1].provenance == Some(chain[i])
      {
        if i < |prefix| - 1 {
          assert chain[i] == prefix[i] && chain[i + 1] == prefix[i + 1];
        } else {
          assert chain[i] == prefix[|prefix| - 1] == p;
        }
      }
  }

  /** The chain is the leaf followed by its ancestors, reversed. */
  lemma {:induction false} ChainReversesWalk(c: Credential)
    ensures var walk, chain := [c] + Ancestors(c), ProvenanceChain(c);
      && |chain| == |walk|
      && forall k :: 0 <= k < |chain| ==> chain[k] == walk[|walk| - 1 - k]
    decreases c
  {
    match c.provenance
    case None =>
    case Some(p) =>
      ChainReversesWalk(p);
      var walk, chain := [c] + Ancestors(c), ProvenanceChain(c);
      var walkP, chainP := [p] + Ancestors(p), ProvenanceChain(p);
      assert walk == [c] + walkP;
      assert chain == chainP + [c];
      forall k | 0 <= k < |chain|
        ensures chain[k] == walk[|walk| - 1 - k]
      {
        if k < |chainP| {
          assert chain[k] == chainP[k] == walkP[|walkP| - 1 - k];
        }
      }
  }

  /** The inner decode: appends the ancestors of `credential` to the accumulator. */
  method Decode(credential: Credential, acc: seq<Credential>) returns (out: seq<Credential>)
    ensures out == acc + Ancestors(credential)
    decreases credential
  {
    out := acc;
    if credential.provenance.Some? {
      var next := credential.provenance.value;
      out := out + [next];
      out := Decode(next, out);
    }
  }

  /** Python's in-place `list.reverse()`, on the list held in `acc`. */
  method Reverse(acc: seq<Credential>) returns (r: seq<Credential>)
    ensures |r| == |acc|
    ensures forall k :: 0 <= k < |acc| ==> r[k] == acc[|acc| - 1 - k]
  {
    r := acc;
    var n := |acc|;
    var i := 0;
    while i < n / 2
      invariant 0 <= i <= n / 2 && |r| == n
      invariant forall k :: 0 <= k < i ==> r[k] == acc[n - 1 - k] && r[n - 1 - k] == acc[k]
      invariant forall k :: i <= k < n - i ==> r[k] == acc[k]
    {
      r := r[i := r[n - 1 - i]][n - 1 - i := r[i]];
      i := i + 1;
    }
  }

  /** extract_provenance_chain: collect leaf first, then reverse the list. */
  method ExtractProvenanceChain(credential: Credential) returns (chain: seq<Credential>)
    ensures chain == ProvenanceChain(credential)
  {
    var acc := [credential];
    acc := Decode(credential, acc);
    chain := Reverse(acc);
    ChainReversesWalk(credential);
  }

  // ---------------------------------------------------------------------
  // Chain validation
  // ---------------------------------------------------------------------

  /** Why a chain is rejected; `parent` is the index of the parent of the failing link. */
  datatype ChainError =
    | InvalidRoot                     // the root is not self-issued, or has provenance
    | RootNotAuthorized               // the root's principal does not satisfy its own rule
    | BrokenLink(parent: nat)         // the child is not issued by the parent's subject
    | PrivilegeEscalation(parent: nat) // the child's privileges exceed the parent's
    | LinkNotAuthorized(parent: nat)  // the child's principal does not satisfy its rule

  /** The root is its own trust anchor. */
  predicate RootShaped(root: Credential) {
    root.IsSelfSigned() && root.provenance.None?
  }

  /** The credential's own subject, alone, satisfies the rule granted to it. */
  predicate SelfAuthorized(c: Credential) {
    Satisfies([c.subject.IntoPrincipal()], c.subject.permission)
  }

  /** The child was issued by the parent's subject. */
  predicate Linked(parent: Credential, child: Credential) {
    parent.subject.id == child.id
  }

  /** The child's privileges are among the parent's. */
  predicate Narrows(parent: Credential, child: Credential) {
    child.subject.permission.PrivSet() <= parent.subject.permission.PrivSet()
  }

  /** One link passes all its checks. */
  predicate LinkOk(parent: Credential, child: Credential) {
    Linked(parent, child) && Narrows(parent, child) && SelfAuthorized(child)
  }

  /** The root passes its checks. */
  predicate RootOk(root: Credential) {
    RootShaped(root) && SelfAuthorized(root)
  }

  /** The links with parent index below k all pass. */
  predicate LinksOkBelow(chain: seq<Credential>, k: nat)
    requires k < |chain|
  {
    forall j :: 0 <= j < k ==> LinkOk(chain[j], chain[j + 1])
  }

  /** Every check of validate_chain passes on this chain. */
  predicate ValidChain(chain: seq<Credential>) {
    |chain| > 0 && RootOk(chain[0]) && LinksOkBelow(chain, |chain| - 1)
  }

  /** `e` is the first violation met when the checks are made in order. */
  predicate FailsWith(chain: seq<Credential>, e: ChainError)
    requires |chain| > 0
  {
    match e
    case InvalidRoot => !RootShaped(chain[0])
    case RootNotAuthorized => RootShaped(chain[0]) && !SelfAuthorized(chain[0])
    case BrokenLink(i) =>
      RootOk(chain[0]) && i + 1 < |chain| && LinksOkBelow(chain, i)
      && !Linked(chain[i], chain[i + 1])
    case PrivilegeEscalation(i) =>
      RootOk(chain[0]) && i + 1 < |chain| && LinksOkBelow(chain, i)
      && Linked(chain[i], chain[i + 1]) && !Narrows(chain[i], chain[i + 1])
    case LinkNotAuthorized(i) =>
      RootOk(chain[0]) && i + 1 < |chain| && LinksOkBelow(chain, i)
      && Linked(chain[i], chain[i + 1]) && Narrows(chain[i], chain[i + 1])
      && !SelfAuthorized(chain[i + 1])
  }

  /**
   * validate_chain: succeeds exactly when every check passes, and then
   * returns the principal of the credential given (the leaf), not the
   * root's; otherwise reports the first check that fails.
   */
  method ValidateChain(credential: Credential) returns (r: Result<Principal, ChainError>)
    ensures r.Success? <==> ValidChain(ProvenanceChain(credential))
    ensures r.Success? ==> r.value.id == credential.subject.id && r.value.roles == [credential.subject.role]
    ensures r.Failure? ==> |ProvenanceChain(credential)| > 0 && FailsWith(ProvenanceChain(credential), r.error)
  {
    var ogp := credential.subject.IntoPrincipal();
    var chain := ExtractProvenanceChain(credential);
    ChainShape(credential);

    var root := chain[0];
    if !(root.IsSelfSigned() && root.provenance.None?) {
      return Failure(InvalidRoot);
    }
    if !Satisfies([root.subject.IntoPrincipal()], root.subject.permission) {
      return Failure(RootNotAuthorized);
    }
    if |chain| == 1 {
      return Success(ogp);
    }

    for k := 1 to |chain|
      invariant LinksOkBelow(chain, k - 1)
    {
      var parent, child := chain[k - 1], chain[k];
      if parent.subject.id != child.id {
        return Failure(BrokenLink(k - 1));
      }
      var pg := parent.subject.permission.PrivSet();
      var cg := child.subject.permission.PrivSet();
      if !(cg <= pg) {
        return Failure(PrivilegeEscalation(k - 1));
      }
      if !Satisfies([child.subject.IntoPrincipal()], child.subject.permission) {
        return Failure(LinkNotAuthorized(k - 1));
      }
    }
    return Success(ogp);
  }

  /** A failure is never reported for a valid chain. */
  lemma FailureMeansInvalid(chain: seq<Credential>, e: ChainError)
    requires |chain| > 0 && FailsWith(chain, e)
    ensures !ValidChain(chain)
  {
  }

  /** Privileges only narrow along a chain whose links all pass: from i down to j. */
  lemma {:induction false} NarrowsAlong(chain: seq<Credential>, i: nat, j: nat)
    requires i <= j < |chain| && LinksOkBelow(chain, |chain| - 1)
    ensures chain[j].subject.permission.PrivSet() <= chain[i].subject.permission.PrivSet()
    decreases j - i
  {
    if i < j {
      NarrowsAlong(chain, i + 1, j);
      assert LinkOk(chain[i], chain[i + 1]);
    }
  }

  /** In a valid chain the leaf's privileges are among every ancestor's, the root's included. */
  lemma LeafPrivilegesNarrowest(chain: seq<Credential>)
    requires ValidChain(chain)
    ensures forall i :: 0 <= i < |chain| ==>
      chain[|chain| - 1].subject.permission.PrivSet() <= chain[i].subject.permission.PrivSet()
  {
    forall i | 0 <= i < |chain|
      ensures chain[|chain| - 1].subject.permission.PrivSet() <= chain[i].subject.permission.PrivSet()
    {
      NarrowsAlong(chain, i, |chain| - 1);
    }
  }

  /**
   * A credential built only through CreateCredential has a self-issued root
   * without provenance, and every link of its chain is issued by the
   * parent's subject.
   */
  lemma {:induction false} ConstructedChainLinked(c: Credential)
    requires Constructed(c)
    ensures var chain := ProvenanceChain(c);
      && RootShaped(chain[0])
      && forall i :: 0 <= i < |chain| - 1 ==> Linked(chain[i], chain[i + 1])
    decreases c
  {
    ChainShape(c);
    var framework :| CreateCredential(c.id, c.subject.id, c.subject.role, framework, c.provenance) == Success(c);
    match c.provenance
    case None =>
    case Some(p) =>
      ConstructedChainLinked(p);
      ChainShape(p);
      var chain, prefix := ProvenanceChain(c), ProvenanceChain(p);
      assert chain == prefix + [c];
      forall i | 0 <= i < |chain| - 1
        ensures Linked(chain[i], chain[i + 1])
      {
        if i < |prefix| - 1 {
          assert chain[i] == prefix[i] && chain[i + 1] == prefix[i + 1];
        } else {
          assert chain[i] == p && chain[i + 1] == c;
        }
      }
  }

  /**
   * Validating a constructed credential never fails for an invalid root or a
   * broken link: only an authorization or privilege check can fail.
   */
  lemma ConstructedNeverBroken(c: Credential, e: ChainError)
    requires Constructed(c)
    requires |ProvenanceChain(c)| > 0 && FailsWith(ProvenanceChain(c), e)
    ensures e.RootNotAuthorized? || e.PrivilegeEscalation? || e.LinkNotAuthorized?
  {
    ConstructedChainLinked(c);
  }

  // ---------------------------------------------------------------------
  // Presentation authorization
  // ---------------------------------------------------------------------

  /** The principals of the given leaf credentials, in order, duplicates kept. */
  function Leaves(credentials: seq<Credential>): (ps: seq<Principal>)
    ensures |ps| == |credentials|
    ensures forall i :: 0 <= i < |credentials| ==>
      ps[i].id == credentials[i].subject.id && ps[i].roles == [credentials[i].subject.role]
  {
    if credentials == [] then []
    else Leaves(credentials[..|credentials| - 1]) + [credentials[|credentials| - 1].subject.IntoPrincipal()]
  }

  /**
   * The decision `verified` makes: every credential's chain validates, and
   * the leaf principals, in presentation order, satisfy the rule.
   */
  predicate Accepts(p: Presentation, rule: Rule) {
    && (forall i :: 0 <= i < |p.credentials| ==> ValidChain(ProvenanceChain(p.credentials[i])))
    && Satisfies(Leaves(p.credentials), rule)
  }

  /** verified: validate each credential in turn, stop at the first failure. */
  method Verified(p: Presentation, rule: Rule) returns (ok: bool)
    ensures ok == Accepts(p, rule)
  {
    var principals := [];
    for i := 0 to |p.credentials|
      invariant principals == Leaves(p.credentials[..i])
      invariant forall j :: 0 <= j < i ==> ValidChain(ProvenanceChain(p.credentials[j]))
    {
      var r := ValidateChain(p.credentials[i]);
      if r.Failure? {
        return false;
      }
      assert p.credentials[..i + 1][..i] == p.credentials[..i];
      principals := principals + [r.value];
    }
    assert p.credentials[..|p.credentials|] == p.credentials;
    return Satisfies(principals, rule);
  }

  /** One credential whose chain fails makes the presentation unacceptable, whatever the rule. */
  lemma FailClosed(credentials: seq<Credential>, bad: Credential, at: nat, rule: Rule)
    requires at <= |credentials|
    requires !ValidChain(ProvenanceChain(bad))
    ensures !Accepts(Presentation(credentials[..at] + [bad] + credentials[at..]), rule)
  {
  }
}
