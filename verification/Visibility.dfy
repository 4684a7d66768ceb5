/** Audiences, what a release may show them, and the later check on a hidden verifier's sources. */
module Visibility {
  import opened Wrappers

  datatype Audience = Public | Participant | Reviewer | Verifier | Author

  datatype Sensitivity = PublicInfo | Internal | Confidential | Secret

  /** How a task marks one of its resources; `allowed` is its redistribution. */
  datatype Marking = Marking(visibility: Audience, sensitivity: Sensitivity, allowed: bool)

  datatype GeneratedFile = GeneratedFile(path: string, sources: seq<string>, marking: Marking)

  /** `visible_sources`: the markings an audience may see. */
  function Sees(a: Audience): set<Audience> {
    match a
    case Public => {Public}
    case Participant => {Public, Participant}
    case Reviewer => {Public, Participant, Reviewer}
    case Verifier => {Public, Participant, Verifier}
    case Author => {Public, Participant, Reviewer, Verifier, Author}
  }

  function Rank(s: Sensitivity): nat {
    match s
    case PublicInfo => 0
    case Internal => 1
    case Confidential => 2
    case Secret => 3
  }

  /** The table is a partial order with the public at the bottom and the author on top, and not a total one. */
  lemma AudiencesArePartiallyOrdered(a: Audience, b: Audience, c: Audience)
    ensures a in Sees(a) && Public in Sees(a) && a in Sees(Author)
    ensures a in Sees(b) && b in Sees(c) ==> a in Sees(c)
    ensures a in Sees(b) && b in Sees(a) ==> a == b
    ensures Reviewer !in Sees(Verifier) && Verifier !in Sees(Reviewer)
  {
  }

  /** Who sees what: everybody the public material, everybody but the public what participants get, and the reviewer's,
      the verifier's and the author's only themselves and the author. */
  lemma WhoSees(a: Audience)
    ensures Public in Sees(a)
    ensures Participant in Sees(a) <==> a != Public
    ensures Reviewer in Sees(a) <==> a == Reviewer || a == Author
    ensures Verifier in Sees(a) <==> a == Verifier || a == Author
    ensures Author in Sees(a) <==> a == Author
  {
  }

  /** Sensitivities are linearly ordered from public to secret. */
  lemma SensitivitiesAreOrdered(a: Sensitivity, b: Sensitivity)
    ensures Rank(PublicInfo) < Rank(Internal) < Rank(Confidential) < Rank(Secret)
    ensures Rank(PublicInfo) <= Rank(a) <= Rank(Secret)
    ensures Rank(a) == Rank(b) ==> a == b
  {
  }

  /** Each element may be derived from the one before it. */
  predicate Chain(marks: seq<Audience>) {
    forall i | 0 <= i < |marks| - 1 :: marks[i] in Sees(marks[i + 1])
  }

  /** Along a chain of derivations, whoever may see the end may see the beginning. */
  lemma {:induction false} ChainsKeepVisibility(marks: seq<Audience>, reader: Audience)
    requires marks != [] && Chain(marks) && marks[|marks| - 1] in Sees(reader)
    ensures forall i | 0 <= i < |marks| :: marks[i] in Sees(reader)
  {
    var n := |marks| - 1;
    if n > 0 {
      assert marks[n - 1] in Sees(marks[n]);
      AudiencesArePartiallyOrdered(marks[n - 1], marks[n], reader);
      var rest := marks[..n];
      assert Chain(rest) by {
        forall i | 0 <= i < |rest| - 1 ensures rest[i] in Sees(rest[i + 1]) {
          assert marks[i] in Sees(marks[i + 1]);
        }
      }
      ChainsKeepVisibility(rest, reader);
      forall i | 0 <= i < |marks| ensures marks[i] in Sees(reader) {
        if i < n {
          assert rest[i] == marks[i];
        }
      }
    }
  }

  // ---------------------------------------------------------------------------
  // The release check
  // ---------------------------------------------------------------------------

  /** A file marked `file` may be made from a resource marked `source`. */
  predicate MayDerive(file: Marking, source: Marking) {
    && source.visibility in Sees(file.visibility)
    && Rank(source.sensitivity) <= Rank(file.sensitivity)
    && (file.allowed ==> source.allowed)
  }

  predicate FileAccepted(file: GeneratedFile, resources: map<string, Marking>) {
    forall s | s in file.sources :: s in resources && MayDerive(file.marking, resources[s])
  }

  predicate Accepted(files: seq<GeneratedFile>, resources: map<string, Marking>) {
    forall i | 0 <= i < |files| :: FileAccepted(files[i], resources)
  }

  /** The generated-file part of `_validate_release`: nested loops that stop at the first violation. */
  method ValidateFiles(files: seq<GeneratedFile>, resources: map<string, Marking>) returns (ok: bool)
    ensures ok <==> Accepted(files, resources)
  {
    for i := 0 to |files|
      invariant forall k | 0 <= k < i :: FileAccepted(files[k], resources)
    {
      var file := files[i];
      if exists s | s in file.sources :: s !in resources {
        return false;
      }
      for j := 0 to |file.sources|
        invariant forall k | 0 <= k < j :: MayDerive(file.marking, resources[file.sources[k]])
      {
        var source := resources[file.sources[j]];
        if source.visibility !in Sees(file.marking.visibility)
           || Rank(file.marking.sensitivity) < Rank(source.sensitivity)
           || (file.marking.allowed && !source.allowed) {
          assert file.sources[j] in file.sources;
          return false;
        }
      }
    }
    ok := true;
  }

  /** Nothing an audience can read comes from a resource hidden from it, is less sensitive than its source, or may be
      redistributed when its source may not. */
  lemma NothingHiddenIsReadable(files: seq<GeneratedFile>, resources: map<string, Marking>, reader: Audience, i: nat, s: string)
    requires Accepted(files, resources) && i < |files| && s in files[i].sources
    requires files[i].marking.visibility in Sees(reader)
    ensures s in resources && resources[s].visibility in Sees(reader)
    ensures Rank(resources[s].sensitivity) <= Rank(files[i].marking.sensitivity)
    ensures files[i].marking.allowed ==> resources[s].allowed
  {
    assert FileAccepted(files[i], resources);
    AudiencesArePartiallyOrdered(resources[s].visibility, files[i].marking.visibility, reader);
  }

  // ---------------------------------------------------------------------------
  // The hidden verifier
  // ---------------------------------------------------------------------------

  const OPEN := {Public, Participant}

  datatype AssetScope = ParticipantScope | EvaluatorScope | ToolScope | OtherScope

  datatype Asset = Asset(id: string, scope: AssetScope)

  predicate AnyOpen(hidden: set<string>, resources: map<string, Marking>) {
    exists h | h in hidden :: h in resources && resources[h].visibility in OPEN
  }

  function OpenSources(files: seq<GeneratedFile>): set<string> {
    set i, s | 0 <= i < |files| && files[i].marking.visibility in OPEN && s in files[i].sources :: s
  }

  function AssetsIn(assets: seq<Asset>, scopes: set<AssetScope>): set<string> {
    set a | a in assets && a.scope in scopes :: a.id
  }

  lemma DisjointMeansEmpty(a: set<string>, b: set<string>)
    ensures a * b == {} <==> a !! b
  {
    if a * b == {} {
      forall x | x in a ensures x !in b {
        assert x in b ==> x in a * b;
      }
    }
  }

  /** `_hidden_verifier_sources_are_disjoint`; `hidden` is absent when the qualification is of no known kind. */
  method HiddenSourcesDisjoint(
    hidden: Option<set<string>>, files: seq<GeneratedFile>, resources: map<string, Marking>, assets: seq<Asset>)
    returns (ok: bool)
    ensures ok <==> && hidden.Some? && !AnyOpen(hidden.value, resources) && hidden.value !! OpenSources(files)
                    && AssetsIn(assets, {ParticipantScope}) !! AssetsIn(assets, {EvaluatorScope, ToolScope})
  {
    if hidden.None? || AnyOpen(hidden.value, resources) {
      return false;
    }
    var sources: set<string> := {};
    for i := 0 to |files|
      invariant sources == set k, s | 0 <= k < i && files[k].marking.visibility in OPEN && s in files[k].sources :: s
    {
      if files[i].marking.visibility in OPEN {
        sources := sources + set s | s in files[i].sources;
      }
    }
    assert sources == OpenSources(files);
    DisjointMeansEmpty(hidden.value, sources);
    if hidden.value * sources != {} {
      return false;
    }
    var participant, evaluator := AssetsIn(assets, {ParticipantScope}), AssetsIn(assets, {EvaluatorScope, ToolScope});
    DisjointMeansEmpty(participant, evaluator);
    ok := participant * evaluator == {};
  }

  /** In an accepted release the source-intersection clause can never be the one that fails. */
  lemma IntersectionIsImplied(hidden: set<string>, files: seq<GeneratedFile>, resources: map<string, Marking>)
    requires Accepted(files, resources) && !AnyOpen(hidden, resources)
    ensures hidden !! OpenSources(files)
  {
    forall s | s in OpenSources(files) ensures s !in hidden {
      var i :| 0 <= i < |files| && files[i].marking.visibility in OPEN && s in files[i].sources;
      NothingHiddenIsReadable(files, resources, Participant, i, s);
    }
  }

  /** Without the release check it can: a public file made from an author-only resource. */
  lemma IntersectionMattersUnchecked()
    ensures var files := [GeneratedFile("notes", ["oracle"], Marking(Public, PublicInfo, true))];
            var resources := map["oracle" := Marking(Author, Secret, false)];
            !AnyOpen({"oracle"}, resources) && !({"oracle"} !! OpenSources(files)) && !Accepted(files, resources)
  {
    var files := [GeneratedFile("notes", ["oracle"], Marking(Public, PublicInfo, true))];
    var resources := map["oracle" := Marking(Author, Secret, false)];
    assert "oracle" in files[0].sources;
    assert "oracle" in OpenSources(files);
    assert !FileAccepted(files[0], resources);
  }
}
