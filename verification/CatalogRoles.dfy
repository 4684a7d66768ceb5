/** Exported catalog members, and the check that their roles cover every qualified instance. */
module CatalogRoles {
  import opened Wrappers
  import opened Counting
  import opened Octets

  datatype Role =
    | PublicFile | ParticipantFile | VerifierFile | TaskSpecDocument | TaskInstanceDocument | AuthorEvidence | FlowTaskPack

  const PARTICIPANT_BUNDLE := {PublicFile, ParticipantFile}
  const VERIFIER_BUNDLE := {VerifierFile}
  const INSTANCE_BOUND := {PublicFile, ParticipantFile, VerifierFile, TaskSpecDocument, TaskInstanceDocument}

  /** `relativePath` is the text that the path validator returned. */
  datatype Export = Export(role: Role, relativePath: string, family: Option<string>, instance: Option<string>, content: Bytes)

  /** `ExportMemberDescriptor.validate_role` */
  predicate WellBound(e: Export) {
    && (e.role in INSTANCE_BOUND <==> e.instance.Some? && e.family.Some?)
    && (e.role !in INSTANCE_BOUND ==> e.instance.None?)
    && (e.role == FlowTaskPack ==> e.family.Some?)
  }

  /** One qualified instance, with the digests of its two bundles. */
  datatype Qualification = Qualification(reference: string, family: string, participantBundle: string, verifierBundle: string)

  datatype FamilyAttestation = FamilyAttestation(family: string, instances: seq<Qualification>)

  datatype Attestation = Attestation(families: seq<FamilyAttestation>, memberManifest: string)

  /** The digests of member lists, as opaque functions of the lists. */
  datatype Manifests = Manifests(members: seq<Export> -> string, bundle: seq<Export> -> string)

  /** What the attestation's own validators ask: some family, each with some instance of that family. */
  predicate ValidAttestation(a: Attestation) {
    && a.families != []
    && (forall i, j | 0 <= i < j < |a.families| :: a.families[i].family != a.families[j].family)
    && forall i | 0 <= i < |a.families| ::
         a.families[i].instances != [] && forall q | q in a.families[i].instances :: q.family == a.families[i].family
  }

  function Qualifications(families: seq<FamilyAttestation>): seq<Qualification> {
    if families == [] then [] else families[0].instances + Qualifications(families[1..])
  }

  function Scoped(exports: seq<Export>, reference: string): seq<Export> {
    if exports == [] then []
    else (if exports[0].instance == Some(reference) then [exports[0]] else []) + Scoped(exports[1..], reference)
  }

  function Bundle(exports: seq<Export>, roles: set<Role>): seq<Export> {
    if exports == [] then [] else (if exports[0].role in roles then [exports[0]] else []) + Bundle(exports[1..], roles)
  }

  /** `exported_role_manifest_digest`: the digest of a bundle, which must not be empty. */
  function BundleDigest(exports: seq<Export>, roles: set<Role>, m: Manifests): Option<string> {
    var bundle := Bundle(exports, roles);
    if bundle == [] then None else Some(m.bundle(bundle))
  }

  predicate InstanceCovered(q: Qualification, exports: seq<Export>, m: Manifests) {
    var scoped := Scoped(exports, q.reference);
    && (forall i | 0 <= i < |scoped| :: scoped[i].family == Some(q.family))
    && BundleDigest(scoped, PARTICIPANT_BUNDLE, m) == Some(q.participantBundle)
    && BundleDigest(scoped, VERIFIER_BUNDLE, m) == Some(q.verifierBundle)
  }

  function VisibleReferences(exports: seq<Export>): set<Option<string>> {
    set i | 0 <= i < |exports| && exports[i].role in INSTANCE_BOUND :: exports[i].instance
  }

  function References(qs: seq<Qualification>): set<Option<string>> {
    set i | 0 <= i < |qs| :: Some(qs[i].reference)
  }

  predicate DistinctReferences(qs: seq<Qualification>) {
    forall i, j | 0 <= i < j < |qs| :: qs[i].reference != qs[j].reference
  }

  /** The members' roles account for every qualified instance and for nothing else. */
  predicate RolesCovered(a: Attestation, exports: seq<Export>, m: Manifests) {
    var qs := Qualifications(a.families);
    && DistinctReferences(qs)
    && VisibleReferences(exports) == References(qs)
    && forall i | 0 <= i < |qs| :: InstanceCovered(qs[i], exports, m)
  }

  /** `validate_export_member_roles` */
  method ValidateRoles(a: Attestation, exports: seq<Export>, m: Manifests) returns (ok: bool)
    ensures ok <==> RolesCovered(a, exports, m)
  {
    var qs := Qualifications(a.families);
    ghost var references := seq(|qs|, i requires 0 <= i < |qs| => Some(qs[i].reference));
    assert forall i | 0 <= i < |qs| :: references[i] == Some(qs[i].reference);
    forall x ensures x in References(qs) <==> x in references {
      if x in references {
        var i :| 0 <= i < |references| && references[i] == x;
        assert Some(qs[i].reference) in References(qs);
      }
    }
    ValuesCount(references, References(qs));
    assert DistinctReferences(qs) <==> Different(references) by {
      if DistinctReferences(qs) {
        forall i, j | 0 <= i < j < |references| ensures references[i] != references[j] {
          assert qs[i].reference != qs[j].reference;
        }
      }
      if Different(references) {
        forall i, j | 0 <= i < j < |qs| ensures qs[i].reference != qs[j].reference {
          assert references[i] != references[j];
        }
      }
    }
    if |References(qs)| != |qs| || VisibleReferences(exports) != References(qs) {
      return false;
    }
    for i := 0 to |qs|
      invariant forall k | 0 <= k < i :: InstanceCovered(qs[k], exports, m)
    {
      var scoped := Scoped(exports, qs[i].reference);
      if exists k | 0 <= k < |scoped| :: scoped[k].family != Some(qs[i].family) {
        return false;
      }
      var participant := BundleDigest(scoped, PARTICIPANT_BUNDLE, m);
      var verifier := BundleDigest(scoped, VERIFIER_BUNDLE, m);
      if participant != Some(qs[i].participantBundle) || verifier != Some(qs[i].verifierBundle) {
        return false;
      }
    }
    ok := true;
  }

  lemma {:induction false} BundleComesFrom(exports: seq<Export>, roles: set<Role>)
    requires Bundle(exports, roles) != []
    ensures exists i :: 0 <= i < |exports| && exports[i].role in roles
  {
    if exports[0].role !in roles {
      BundleComesFrom(exports[1..], roles);
      var i :| 0 <= i < |exports[1..]| && exports[1..][i].role in roles;
      assert exports[i + 1].role in roles;
    }
  }

  lemma {:induction false} ScopedComesFrom(exports: seq<Export>, reference: string, e: Export)
    requires e in Scoped(exports, reference)
    ensures e in exports
  {
    if exports[0].instance != Some(reference) || e != exports[0] {
      ScopedComesFrom(exports[1..], reference, e);
    }
  }

  /** A bundle of some instance holds an exported member of one of its roles. */
  lemma BundleMember(exports: seq<Export>, reference: string, roles: set<Role>, m: Manifests) returns (i: nat)
    requires BundleDigest(Scoped(exports, reference), roles, m).Some?
    ensures i < |exports| && exports[i].role in roles
  {
    var scoped := Scoped(exports, reference);
    BundleComesFrom(scoped, roles);
    var k :| 0 <= k < |scoped| && scoped[k].role in roles;
    ScopedComesFrom(exports, reference, scoped[k]);
    i :| 0 <= i < |exports| && exports[i] == scoped[k];
  }

  /** Every catalog whose roles are covered has a member for participants and another for the verifier. */
  lemma CoveredNeedsTwo(a: Attestation, exports: seq<Export>, m: Manifests)
    requires ValidAttestation(a) && RolesCovered(a, exports, m)
    ensures exists i :: 0 <= i < |exports| && (exports[i].role == PublicFile || exports[i].role == ParticipantFile)
    ensures exists i :: 0 <= i < |exports| && exports[i].role == VerifierFile
    ensures |exports| >= 2
  {
    var qs := Qualifications(a.families);
    assert qs[0] == a.families[0].instances[0];
    assert InstanceCovered(qs[0], exports, m);
    var i := BundleMember(exports, qs[0].reference, PARTICIPANT_BUNDLE, m);
    var j := BundleMember(exports, qs[0].reference, VERIFIER_BUNDLE, m);
    assert exports[i].role != exports[j].role;
  }

  lemma {:induction false} ScopedHolds(exports: seq<Export>, reference: string, i: nat)
    requires i < |exports| && exports[i].instance == Some(reference)
    ensures exports[i] in Scoped(exports, reference)
  {
    if i > 0 {
      ScopedHolds(exports[1..], reference, i - 1);
    }
  }

  predicate Names(e: Export, q: Qualification) {
    e.instance == Some(q.reference) && e.family == Some(q.family)
  }

  /** Evidence and flow packs name no instance; every other member names a qualified instance of its own family. */
  lemma MembersNameInstances(a: Attestation, exports: seq<Export>, m: Manifests, i: nat)
    requires RolesCovered(a, exports, m) && i < |exports| && WellBound(exports[i])
    ensures exports[i].role == AuthorEvidence || exports[i].role == FlowTaskPack ==> exports[i].instance.None?
    ensures exports[i].role != AuthorEvidence && exports[i].role != FlowTaskPack ==>
              exists q :: q in Qualifications(a.families) && Names(exports[i], q)
  {
    var e, qs := exports[i], Qualifications(a.families);
    if e.role in INSTANCE_BOUND {
      assert e.instance in VisibleReferences(exports);
      var k :| 0 <= k < |qs| && e.instance == Some(qs[k].reference);
      assert InstanceCovered(qs[k], exports, m);
      ScopedHolds(exports, qs[k].reference, i);
      var scoped := Scoped(exports, qs[k].reference);
      var j :| 0 <= j < |scoped| && scoped[j] == e;
      assert qs[k] in qs && Names(e, qs[k]);
    }
  }
}
