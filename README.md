# Delegation chains and a revocation list, in Dafny

A Dafny model of the core of delegate-with-sgl, an experiment in delegating
authority with verifiable credentials:

- **Credentials** (`helpers.dfy`, module `Helpers`). A credential names its
  issuer (`id`), embeds its parent credential by value (`provenance`) and
  carries a subject: an id, a role, and the rule granted to that role. The
  constructor `CreateCredential` looks the role up in a trust framework. It
  refuses an unknown role. It refuses a root that is not self-issued. It
  refuses a delegate whose issuer is not the parent's subject.
- **Chains** (`chain.dfy`, module `Chain`). `ExtractProvenanceChain` walks the
  embedded parents and returns the chain root first. `ValidateChain` runs the
  checks in the source's order and stops at the first failure:
  1. the root is self-issued and has no provenance;
  2. the root's principal satisfies the root's rule;
  3. each child is issued by its parent's subject;
  4. each child's privileges are among its parent's;
  5. each child's principal satisfies the child's rule.

  On success it returns the principal of the credential it was given, the
  leaf. `Verified` validates every credential of a presentation and then asks
  whether the leaf principals, in order and with duplicates, satisfy a rule.
- **The policy library** (`sgl.dfy`, module `Sgl`). The library that decides
  `satisfies` is external. A rule is its privilege list plus an arbitrary
  predicate over a sequence of principals, and `Satisfies` applies that
  predicate. Every property proved here therefore holds for any decision
  the library makes.
- **Revocation list** (`revoke.dfy`, module `Revoke`). This is the bit string
  of the Revocation List 2020 draft of the W3C Credentials Community Group,
  held in a byte array. `Revoke` sets a bit and `IsRevoked` reads it. Bits
  are numbered from the most significant bit of each byte. The class keeps
  the array as a field, and its methods write it in place. A ghost field
  `revoked` holds the set of revoked positions, and `Valid()` ties that set
  to the bytes.

Python's `assert` statements and `IndexError`s become `Result`, `Option` or
`bool` returns rather than preconditions. The chain error kinds are named
after the check that fails (`InvalidRoot`, `RootNotAuthorized`,
`BrokenLink`, `PrivilegeEscalation`, `LinkNotAuthorized`). The source raises
a bare `AssertionError` for all of them.

Indexing follows Python. `rid >> 3` is floor division, the same as Dafny's
`/` by 8. `rid & 7` equals `rid % 8` for every integer. A negative byte index
counts from the end of the array. So in a list of `n` bytes, an index `rid`
with `-8n <= rid < 0` names the same bit as `rid + 8n` (`Position`). Any other
index outside `0 <= rid < 8n` raises before anything is written.

A fresh list holds 131072 bytes (1048576 bits): `DefaultListSize = 16 *
1024 * 8` is passed to `bytearray`.

Extraction has no cycle check and no explicit depth bound. Embedded parents
form an inductive datatype here, so a chain is always finite and acyclic.

`revoked` is a ghost view of the bytes. `IsRevoked`, `Revoke` and
`BatchRevoke` read and write whatever bytes the array holds. Their clauses
about `revoked` hold while `Valid()` does.

`Subject.IntoPrincipal` and `Credential.IsSelfSigned` are plain definitions.
The contracts of the members that use them state what they promise.

`RevokeScenarios.SetCheck` replays the revoke-then-query test of
`tests/test_revoke.py` using only the method contracts.
`RevokeScenarios.SharedArray` builds two lists on one array and shows that,
for every in-range index, a revoke through one list is seen by a query through
the other.

## Model

| member | source | states |
|---|---|---|
| `Helpers.Subject.IntoPrincipal` | provenance/helpers.py:17-18 | a plain definition. Its promise, a principal with the subject's id and exactly the one role `[role]`, is stated by the contracts of `Chain.ValidateChain` and `Chain.Leaves` |
| `Helpers.Credential.IsSelfSigned` | provenance/helpers.py:27-28 | a plain definition, `id == subject.id`. Its promise is stated by `CreateCredential` (a credential issued without a parent is self-signed) and by `Chain.ConstructedChainLinked` (the root of a constructed chain is self-signed) |
| `Helpers.CreateCredential` | provenance/helpers.py:36-54 | fails with `UnknownRole` when the role is not a key of the framework. On success the credential has issuer `issuer`, subject id `subject`, role `role`, the framework's rule for that role and provenance `prov`. Without a parent it succeeds iff `issuer == subject`, and the result is self-signed. With a parent it succeeds iff `issuer` is the parent's subject id |
| `Chain.Decode` | provenance/chain.py:18-22 | appends every ancestor of the credential to the accumulator, nearest first |
| `Chain.ChainReversesWalk` | provenance/chain.py:24-27 | the root-first chain is the leaf-first walk (the credential, then its ancestors) reversed, element by element |
| `Chain.Reverse` | provenance/chain.py:26 | the in-place reversal of the accumulator: same length, and element `k` of the result is element `n - 1 - k` of the input |
| `Chain.ExtractProvenanceChain` | provenance/chain.py:12-27 | the list built by decode and then reversed in place is exactly the root-first chain `ProvenanceChain(credential)` |
| `Chain.ChainShape` | provenance/chain.py:12-27 | the chain is non-empty, its length is the provenance depth plus one, the credential itself is last, the first element has no provenance, and each element is the embedded parent of the next |
| `Chain.ValidateChain` | provenance/chain.py:30-77 | succeeds iff the chain passes every check: a self-issued root with no provenance, a self-authorized root, and for every link a child issued by the parent's subject, child privileges a subset of the parent's, and a self-authorized child. On success it returns the leaf's principal, not the root's: its id is the leaf subject's id and its roles are exactly `[role]` of the leaf's subject. On failure the error names the first check in source order that fails, and the link where it fails |
| `Chain.FailureMeansInvalid` | provenance/chain.py:53-75 | a chain with a first failing check is not valid, so success and failure exclude each other |
| `Chain.NarrowsAlong` | provenance/chain.py:64-71 | when every link passes, the privileges at a later position are a subset of those at any earlier position |
| `Chain.LeafPrivilegesNarrowest` | provenance/chain.py:68-71 | in a valid chain the leaf's privileges are among every ancestor's, the root's included |
| `Chain.ConstructedChainLinked` | provenance/helpers.py:46-53 | for a credential built only through `CreateCredential`, each link against a trust framework of its own, the chain's root is self-issued with no provenance and every child is issued by its parent's subject |
| `Chain.ConstructedNeverBroken` | provenance/chain.py:53-66 | validating a constructed credential, whatever framework each link was built against, can fail only on authorization or privileges, never with `InvalidRoot` or `BrokenLink` |
| `Chain.Leaves` | provenance/chain.py:85-90 | one principal per credential, in presentation order and with duplicates kept. Each has the credential subject's id and exactly its one role |
| `Chain.Verified` | provenance/chain.py:80-93 | returns true iff every credential's chain validates and the sequence of leaf principals satisfies the rule |
| `Chain.FailClosed` | provenance/chain.py:86-92 | inserting one credential whose chain is invalid, anywhere in a presentation, makes it unacceptable whatever the rule |
| `Revoke.ByteIndex` | revoke/__init__.py:24 | the byte index `rid >> 3` is in range iff `-8n <= rid < 8n`. It is then below `n`, and for a non-negative `rid` it equals `rid / 8` |
| `Revoke.MasksAgree` | revoke/__init__.py:24-31 | revoke's mask `128 >> k` and is_revoked's mask `1 << (7 - k)` are equal for every bit offset `k < 8` |
| `Revoke.Position` | revoke/__init__.py:24-31 | `rid` addresses a position iff `-8n <= rid < 8n`. That position lies below `8n` and is `rid` itself, or `rid + 8n` for a negative `rid` |
| `Revoke.PositionSplit` | revoke/__init__.py:24-31 | the position divided by 8 is the byte index `rid >> 3` the source reads, and the position modulo 8 is the bit offset `rid & 7` |
| `Revoke.SetBit` | revoke/__init__.py:24-25 | setting a position keeps the length and leaves every byte other than `p / 8` unchanged |
| `Revoke.SetBitEffect` | revoke/__init__.py:20-34 | after setting `p`, position `q` tests revoked iff `q == p` or it was revoked before |
| `Revoke.SetBitRevoked` | revoke/__init__.py:20-25 | setting `p` adds exactly `p` to the revoked set, so nothing is un-revoked |
| `Revoke.SetBitIdempotent` | revoke/__init__.py:25 | setting a position twice gives the same bytes as setting it once |
| `Revoke.ZerosRevokeNothing` | revoke/__init__.py:18 | an all-zero list has no revoked position |
| `Revoke.FirstOutOfRange` | revoke/__init__.py:36-38 | every index before the result is in range, and the index at the result, if any, is not: it is where the batch raises |
| `Revoke.SetAllRevoked` | revoke/__init__.py:36-38 | revoking a batch adds exactly the batch's positions to the revoked set |
| `Revoke.RevocationList.constructor` | revoke/__init__.py:17-18 | establishes `Valid()`. It uses a supplied non-empty array as it is, shared with the caller. With no array, or an empty one, it allocates a fresh all-zero list of `DefaultListSize = 131072` bytes with nothing revoked |
| `Revoke.RevocationList.Size` | revoke/__init__.py:50-51 | the length of the list in bytes |
| `Revoke.RevocationList.IsRevoked` | revoke/__init__.py:27-34 | answers iff `-8n <= rid < 8n`. It then answers whether the bit at the position `rid` addresses is set in the current bytes, which under `Valid()` is whether that position is in `revoked` |
| `Revoke.RevocationList.Revoke` | revoke/__init__.py:20-25 | keeps the same array, and keeps `Valid()` when it held before. It succeeds iff `-8n <= rid < 8n`. The new bytes are the old ones with that position set, and `revoked` gains exactly that position. Out of range, nothing changes |
| `Revoke.RevocationList.BatchRevoke` | revoke/__init__.py:36-38 | keeps the same array, and keeps `Valid()` when it held before. It revokes the indices in order up to the first out-of-range one, and reports success iff there is none. The bytes and `revoked` are the old ones plus exactly the positions of the indices it reached |

## Left out

- `satisfies`, `Rule` and `Principal` of the external policy library: its role and quorum grammar is not part of this model. A rule's condition is an arbitrary predicate, so no quorum scenario from the tests (manager, dealer, salesman) is proved here.
- The single-principal call `satisfies(principal, rule)` in `validate_chain` is modelled as the call on a one-element sequence.
- An exception raised inside the library during `validate_chain` is not modelled. `Satisfies` is total, and `Verified` treats only a failed check as failure.
- Signature verification and revocation checks during chain validation: the source does not do them either.
- `RevocationList.encode` and `RevocationList.decode`: these are thin calls to zlib and base64, foreign libraries. A list built by `decode` holds immutable bytes, which a later `revoke` cannot write. The model's array is always writable.
- Revoke.RevocationList.IsRevoked, Revoke.RevocationList.Revoke, Revoke.RevocationList.BatchRevoke: a write to the shared array through another reference (the caller's, or a second list's) can break `Valid()`, so that `revoked` is no longer the set of set bits. Their byte-level clauses still hold, and `Revoke` and `BatchRevoke` still state exactly how `revoked` changes. Only their `Valid()`-conditioned clauses say nothing after such a write.
- Chain.Decode, Chain.ValidateChain, Chain.Verified: `decode` recurses once per ancestor, so a chain deeper than Python's recursion limit (about 1000 frames by default) makes `extract_provenance_chain` raise `RecursionError`. `validate_chain` lets it propagate, and the bare `except` of `verified` turns it into `False`. The model has no such bound: it extracts and validates chains of any depth, and `Verified` can accept them.
- The constructor accepts only an optional byte array. Other Python values passed as the bit list are not modelled.
- In `create_credential`, `assert rule` also rejects a framework entry whose value is falsy. The model's framework maps roles to rules, and a present key is always accepted.
- The redundant second assignment to `credential.provenance` in `create_credential` has no effect and is not modelled.
