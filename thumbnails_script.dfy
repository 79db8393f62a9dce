/**
 * `scripts/generate-thumbnails.mjs`: for each manifest slug, render the
 * first page of its PDF to `thumbnail.png` unless that is impossible or
 * already done, counting what happened.
 *
 * `pdftoppm` availability, the manifest file, the existence tests, the
 * command line and the outcome of each `pdftoppm` run are inputs.
 */
module ThumbnailScript {
  import opened Text
  import opened Collections

  /** What happened to one slug. `MissingPdf` and `GenerationFailed` both count as failures. */
  datatype Outcome = Generated | Skipped | MissingPdf | GenerationFailed

  /** The state of the world the script sees. */
  datatype Environment = Environment(
    documentsDir: string,
    fileExists: string -> bool,
    argv: seq<string>,
    generate: (string, string) -> bool)  // runs pdftoppm on (pdfPath, outputPath); true on success

  /** The manifest file: absent, present but not JSON, or the parsed slug list. */
  datatype ManifestFile = Missing | Unparsable | Parsed(slugs: seq<string>)

  function PdfPath(documentsDir: string, slug: string): string {
    PathJoin(documentsDir, slug, "document.pdf")
  }

  function ThumbnailPath(documentsDir: string, slug: string): string {
    PathJoin(documentsDir, slug, "thumbnail.png")
  }

  predicate Forced(argv: seq<string>) {
    "--force" in argv
  }

  /** A file is there when it existed at the start or the run has written it since. */
  predicate FileThere(env: Environment, written: set<string>, path: string) {
    env.fileExists(path) || path in written
  }

  /**
   * One pass of the loop body, given the thumbnails the run has written so
   * far. A missing PDF is a failure and is tested first, so it is never a
   * skip; an existing thumbnail is skipped exactly when `--force` is
   * absent; otherwise the outcome of `pdftoppm`, run on the slug's PDF and
   * thumbnail paths, decides.
   */
  function Classify(slug: string, env: Environment, written: set<string>): (r: Outcome)
    ensures r == MissingPdf <==> !FileThere(env, written, PdfPath(env.documentsDir, slug))
    ensures r == Skipped <==> (&& FileThere(env, written, PdfPath(env.documentsDir, slug))
                               && FileThere(env, written, ThumbnailPath(env.documentsDir, slug))
                               && !Forced(env.argv))
    ensures r in {Generated, GenerationFailed} ==>
              r == (if env.generate(PdfPath(env.documentsDir, slug), ThumbnailPath(env.documentsDir, slug))
                    then Generated else GenerationFailed)
  {
    var pdfPath := PdfPath(env.documentsDir, slug);
    var thumbnailPath := ThumbnailPath(env.documentsDir, slug);
    if !FileThere(env, written, pdfPath) then MissingPdf
    else if FileThere(env, written, thumbnailPath) && !Forced(env.argv) then Skipped
    else if env.generate(pdfPath, thumbnailPath) then Generated
    else GenerationFailed
  }

  /**
   * The thumbnails written while handling `slugs`, whose outcomes are
   * `outcomes`: a successful `pdftoppm -singlefile` run leaves
   * `thumbnail.png` in the slug's folder; nothing else is written.
   */
  function Written(documentsDir: string, slugs: seq<string>, outcomes: seq<Outcome>): set<string>
    requires |slugs| == |outcomes|
  {
    if slugs == [] then {}
    else
      Written(documentsDir, slugs[..|slugs| - 1], outcomes[..|outcomes| - 1])
      + (if outcomes[|outcomes| - 1] == Generated then {ThumbnailPath(documentsDir, slugs[|slugs| - 1])} else {})
  }

  /**
   * The outcomes of the whole loop: each slug is classified against the
   * files present at the start together with what the earlier slugs wrote.
   */
  function Outcomes(slugs: seq<string>, env: Environment): (r: seq<Outcome>)
    ensures |r| == |slugs|
  {
    if slugs == [] then []
    else
      var init := slugs[..|slugs| - 1];
      var prev := Outcomes(init, env);
      prev + [Classify(slugs[|slugs| - 1], env, Written(env.documentsDir, init, prev))]
  }

  lemma {:induction false} OutcomesPrefix(slugs: seq<string>, env: Environment, i: nat)
    requires i <= |slugs|
    ensures Outcomes(slugs[..i], env) == Outcomes(slugs, env)[..i]
    decreases |slugs|
  {
    if i < |slugs| {
      var init := slugs[..|slugs| - 1];
      OutcomesPrefix(init, env, i);
      assert init[..i] == slugs[..i];
    } else {
      assert slugs[..i] == slugs;
    }
  }

  /**
   * Slug `i` is classified against the start state and the thumbnails
   * written for the slugs before it.
   */
  lemma OutcomesInOrder(slugs: seq<string>, env: Environment, i: nat)
    requires i < |slugs|
    ensures Outcomes(slugs, env)[i]
            == Classify(slugs[i], env, Written(env.documentsDir, slugs[..i], Outcomes(slugs, env)[..i]))
  {
    OutcomesPrefix(slugs, env, i + 1);
    OutcomesPrefix(slugs, env, i);
    assert slugs[..i + 1][..i] == slugs[..i];
  }

  /** A path was written exactly when it is the thumbnail of a slug that was `Generated`. */
  lemma {:induction false} WrittenMembers(documentsDir: string, slugs: seq<string>, outcomes: seq<Outcome>, path: string)
    requires |slugs| == |outcomes|
    ensures path in Written(documentsDir, slugs, outcomes)
            <==> exists j :: 0 <= j < |slugs| && outcomes[j] == Generated && path == ThumbnailPath(documentsDir, slugs[j])
    decreases |slugs|
  {
    if slugs != [] {
      var n := |slugs| - 1;
      WrittenMembers(documentsDir, slugs[..n], outcomes[..n], path);
      if exists j :: 0 <= j < |slugs| && outcomes[j] == Generated && path == ThumbnailPath(documentsDir, slugs[j]) {
        var j :| 0 <= j < |slugs| && outcomes[j] == Generated && path == ThumbnailPath(documentsDir, slugs[j]);
        if j < n {
          assert slugs[..n][j] == slugs[j] && outcomes[..n][j] == outcomes[j];
        }
      }
    }
  }

  /**
   * A slug listed twice whose first pass generated its thumbnail is skipped
   * the second time, unless `--force` is given: the first run wrote the
   * file the second one tests.
   */
  lemma RepeatedSlugSkipped(slugs: seq<string>, env: Environment, i: nat, j: nat)
    requires i < j < |slugs| && slugs[i] == slugs[j]
    requires Outcomes(slugs, env)[i] == Generated && !Forced(env.argv)
    ensures Outcomes(slugs, env)[j] == Skipped
  {
    var r := Outcomes(slugs, env);
    var dir := env.documentsDir;
    OutcomesInOrder(slugs, env, i);
    OutcomesInOrder(slugs, env, j);
    var wi := Written(dir, slugs[..i], r[..i]);
    var wj := Written(dir, slugs[..j], r[..j]);
    var pdf := PdfPath(dir, slugs[j]);
    assert FileThere(env, wi, pdf);
    if !env.fileExists(pdf) {
      assert pdf in wi;
      WrittenMembers(dir, slugs[..i], r[..i], pdf);
      var k :| 0 <= k < i && r[..i][k] == Generated && pdf == ThumbnailPath(dir, slugs[..i][k]);
      assert r[..j][k] == Generated && slugs[..j][k] == slugs[..i][k];
      WrittenMembers(dir, slugs[..j], r[..j], pdf);
    }
    assert r[..j][i] == Generated && slugs[..j][i] == slugs[j];
    WrittenMembers(dir, slugs[..j], r[..j], ThumbnailPath(dir, slugs[j]));
  }

  /** A slug's thumbnail path determines the slug. */
  lemma ThumbnailPathInjective(documentsDir: string, a: string, b: string)
    requires ThumbnailPath(documentsDir, a) == ThumbnailPath(documentsDir, b)
    ensures a == b
  {
    var p := ThumbnailPath(documentsDir, a);
    var k := |documentsDir| + 1;
    assert p == documentsDir + "/" + a + "/" + "thumbnail.png";
    assert |a| == |b|;
    assert p[k..k + |a|] == a;
    assert ThumbnailPath(documentsDir, b)[k..k + |b|] == b;
  }

  /** A PDF path is never a thumbnail path: they end in different file names. */
  lemma PdfIsNoThumbnail(documentsDir: string, a: string, b: string)
    ensures PdfPath(documentsDir, a) != ThumbnailPath(documentsDir, b)
  {
    var p, t := PdfPath(documentsDir, a), ThumbnailPath(documentsDir, b);
    assert p[|p| - 1] == 'f';
    assert t[|t| - 1] == 'g';
  }

  /**
   * With no slug listed twice, nothing the run writes is tested again, so
   * every slug is classified against the files present at the start.
   */
  lemma DistinctSlugsSeeStart(slugs: seq<string>, env: Environment, i: nat)
    requires NoDups(slugs) && i < |slugs|
    ensures Outcomes(slugs, env)[i] == Classify(slugs[i], env, {})
  {
    var r := Outcomes(slugs, env);
    var dir := env.documentsDir;
    OutcomesInOrder(slugs, env, i);
    var w := Written(dir, slugs[..i], r[..i]);
    var pdf, thumb := PdfPath(dir, slugs[i]), ThumbnailPath(dir, slugs[i]);
    WrittenMembers(dir, slugs[..i], r[..i], pdf);
    WrittenMembers(dir, slugs[..i], r[..i], thumb);
    if pdf in w {
      var k :| 0 <= k < i && r[..i][k] == Generated && pdf == ThumbnailPath(dir, slugs[..i][k]);
      PdfIsNoThumbnail(dir, slugs[i], slugs[..i][k]);
    }
    if thumb in w {
      var k :| 0 <= k < i && r[..i][k] == Generated && thumb == ThumbnailPath(dir, slugs[..i][k]);
      ThumbnailPathInjective(dir, slugs[i], slugs[..i][k]);
    }
  }

  /** How many of `outcomes` are `o`. */
  function Tally(outcomes: seq<Outcome>, o: Outcome): nat {
    if outcomes == [] then 0
    else Tally(outcomes[..|outcomes| - 1], o) + (if outcomes[|outcomes| - 1] == o then 1 else 0)
  }

  /** Every outcome is exactly one of the four kinds. */
  lemma {:induction false} TallyTotal(outcomes: seq<Outcome>)
    ensures Tally(outcomes, Generated) + Tally(outcomes, Skipped)
          + Tally(outcomes, MissingPdf) + Tally(outcomes, GenerationFailed) == |outcomes|
  {
    if outcomes != [] {
      TallyTotal(outcomes[..|outcomes| - 1]);
    }
  }

  lemma TallySnoc(outcomes: seq<Outcome>, x: Outcome, o: Outcome)
    ensures Tally(outcomes + [x], o) == Tally(outcomes, o) + (if x == o then 1 else 0)
  {
    assert (outcomes + [x])[..|outcomes|] == outcomes;
  }

  datatype ThumbnailRun = ThumbnailRun(
    outcomes: seq<Outcome>,
    successCount: nat,
    skipCount: nat,
    failCount: nat,
    exitCode: int)

  /**
   * `generateAllThumbnails`. Without `pdftoppm`, or without a readable
   * manifest, it stops with status 1 before any slug. Otherwise the slugs
   * get the `Outcomes` of the manifest, in order, each seeing the thumbnails
   * written before it; each increments exactly one counter, and the status
   * is 1 exactly when some slug failed.
   */
  method GenerateAllThumbnails(popplerInstalled: bool, manifest: ManifestFile, env: Environment)
    returns (run: ThumbnailRun)
    ensures !popplerInstalled || !manifest.Parsed? ==> run == ThumbnailRun([], 0, 0, 0, 1)
    ensures popplerInstalled && manifest.Parsed? ==>
              && |run.outcomes| == |manifest.slugs|
              && run.outcomes == Outcomes(manifest.slugs, env)
              && run.successCount == Tally(run.outcomes, Generated)
              && run.skipCount == Tally(run.outcomes, Skipped)
              && run.failCount == Tally(run.outcomes, MissingPdf) + Tally(run.outcomes, GenerationFailed)
              && run.successCount + run.skipCount + run.failCount == |manifest.slugs|
              && run.exitCode == (if run.failCount > 0 then 1 else 0)
  {
    if !popplerInstalled {
      return ThumbnailRun([], 0, 0, 0, 1);
    }
    if !manifest.Parsed? {
      // a missing file is reported and exits; a parse error rejects and the catch exits
      return ThumbnailRun([], 0, 0, 0, 1);
    }
    var slugs := manifest.slugs;
    var successCount, skipCount, failCount := 0, 0, 0;
    var outcomes: seq<Outcome> := [];
    var written: set<string> := {};
    for i := 0 to |slugs|
      invariant outcomes == Outcomes(slugs[..i], env)
      invariant written == Written(env.documentsDir, slugs[..i], outcomes)
      invariant successCount == Tally(outcomes, Generated)
      invariant skipCount == Tally(outcomes, Skipped)
      invariant failCount == Tally(outcomes, MissingPdf) + Tally(outcomes, GenerationFailed)
      invariant successCount + skipCount + failCount == i
    {
      var slug := slugs[i];
      var pdfPath := PdfPath(env.documentsDir, slug);
      var thumbnailPath := ThumbnailPath(env.documentsDir, slug);
      var outcome;
      if !(env.fileExists(pdfPath) || pdfPath in written) {
        failCount := failCount + 1;
        outcome := MissingPdf;
      } else if (env.fileExists(thumbnailPath) || thumbnailPath in written) && !Forced(env.argv) {
        skipCount := skipCount + 1;
        outcome := Skipped;
      } else if env.generate(pdfPath, thumbnailPath) {
        successCount := successCount + 1;
        outcome := Generated;
        written := written + {thumbnailPath};
      } else {
        failCount := failCount + 1;
        outcome := GenerationFailed;
      }
      TallySnoc(outcomes, outcome, Generated);
      TallySnoc(outcomes, outcome, Skipped);
      TallySnoc(outcomes, outcome, MissingPdf);
      TallySnoc(outcomes, outcome, GenerationFailed);
      StepOutcomes(slugs, env, i, outcomes, outcome);
      outcomes := outcomes + [outcome];
    }
    assert slugs[..|slugs|] == slugs;
    var exitCode := if failCount > 0 then 1 else 0;
    run := ThumbnailRun(outcomes, successCount, skipCount, failCount, exitCode);
  }

  /** One pass of the loop extends the outcomes and the written files by the next slug's. */
  lemma StepOutcomes(slugs: seq<string>, env: Environment, i: nat, outcomes: seq<Outcome>, outcome: Outcome)
    requires i < |slugs| && outcomes == Outcomes(slugs[..i], env)
    requires outcome == Classify(slugs[i], env, Written(env.documentsDir, slugs[..i], outcomes))
    ensures Outcomes(slugs[..i + 1], env) == outcomes + [outcome]
    ensures Written(env.documentsDir, slugs[..i + 1], outcomes + [outcome])
            == Written(env.documentsDir, slugs[..i], outcomes)
               + (if outcome == Generated then {ThumbnailPath(env.documentsDir, slugs[i])} else {})
  {
    assert slugs[..i + 1][..i] == slugs[..i];
    assert (outcomes + [outcome])[..i] == outcomes;
  }
}
