/** The tiered artifact validator: a fast path on an exact hash match, then a
    strict, standard or tolerant check depending on the validation type. Each
    check answers with a success flag and a message. */
module Validation {
  import opened Common
  import opened FileSystems
  import opened Fingerprint

  /** The algorithm every validation hashes with. */
  const Sha256 := "sha256"

  /** A validation message. The tolerant check formats its similarity as a
      two-decimal float; the model keeps the numbers instead of the text. */
  datatype Message =
    | Text(text: string)
    | SimilarityReport(passed: bool, similarity: real, threshold: real)

  datatype Verdict = Verdict(success: bool, message: Message)

  // ---------------------------------------------------------------- strict

  /** `validate_strict`: exact hash equality; a hashing error propagates. */
  function ValidateStrict(fs: FileSystem, p: Path, reference: string, digest: Digest): (r: Result<Verdict, string>)
    ensures ArtifactHash(fs, p, digest, Sha256).Err? ==> r == Err(ArtifactHash(fs, p, digest, Sha256).error)
    ensures r.Ok? ==> (r.value.success <==> ArtifactHash(fs, p, digest, Sha256) == Ok(reference))
    ensures r.Ok? && r.value.success ==> r.value.message == Text("Strict validation passed: exact hash match")
    ensures r.Ok? && !r.value.success ==> r.value.message == Text("Strict validation failed: hash mismatch")
  {
    match ArtifactHash(fs, p, digest, Sha256)
    case Err(e) => Err(e)
    case Ok(current) =>
      if current == reference then Ok(Verdict(true, Text("Strict validation passed: exact hash match")))
      else Ok(Verdict(false, Text("Strict validation failed: hash mismatch")))
  }

  // -------------------------------------------------------------- tolerant

  /** The number of positions below min(|a|, |b|) where `a` and `b` agree. */
  function MatchCount(a: string, b: string): (n: nat)
    ensures n <= |a| && n <= |b|
  {
    if a == [] || b == [] then 0
    else (if a[0] == b[0] then 1 else 0) + MatchCount(a[1..], b[1..])
  }

  lemma {:induction false} MatchCountSelf(a: string)
    ensures MatchCount(a, a) == |a|
  {
    if a != [] { MatchCountSelf(a[1..]); }
  }

  /** Only the first min(|a|, |b|) positions count: characters beyond the
      shorter string never matter. */
  lemma {:induction false} MatchCountPrefix(a: string, b: string, extra: string)
    requires |a| <= |b|
    ensures MatchCount(a + extra, b) == MatchCount(a, b) + MatchCount(extra, b[|a|..])
  {
    if a != [] {
      assert (a + extra)[1..] == a[1..] + extra;
      MatchCountPrefix(a[1..], b[1..], extra);
      assert b[1..][|a| - 1..] == b[|a|..];
    } else {
      assert a + extra == extra;
    }
  }

  /** The fraction of the reference's characters matched position-wise. */
  function Similarity(current: string, reference: string): (s: real)
    requires reference != ""
    ensures 0.0 <= s <= 1.0
    ensures s == 1.0 <==> MatchCount(current, reference) == |reference|
  {
    MatchCount(current, reference) as real / |reference| as real
  }

  /** Identical hashes are fully similar. */
  lemma SimilaritySelf(h: string)
    requires h != ""
    ensures Similarity(h, h) == 1.0
  {
    MatchCountSelf(h);
  }

  /** `validate_tolerant`: without a threshold it fails; otherwise it hashes
      (an error propagates), fails on an empty reference, and passes iff the
      similarity reaches the threshold. */
  function ValidateTolerant(fs: FileSystem, p: Path, reference: string, threshold: Option<real>,
                            digest: Digest): (r: Result<Verdict, string>)
    ensures threshold.None? ==>
              r == Ok(Verdict(false, Text("Tolerant validation failed: similarity threshold not provided")))
    ensures threshold.Some? && ArtifactHash(fs, p, digest, Sha256).Err? ==>
              r == Err(ArtifactHash(fs, p, digest, Sha256).error)
    ensures threshold.Some? && ArtifactHash(fs, p, digest, Sha256).Ok? && reference == "" ==>
              r == Ok(Verdict(false, Text("Tolerant validation failed: reference hash is empty")))
    ensures r.Ok? ==>
              (r.value.success <==>
                 threshold.Some? && reference != "" && ArtifactHash(fs, p, digest, Sha256).Ok? &&
                 Similarity(ArtifactHash(fs, p, digest, Sha256).value, reference) >= threshold.value)
  {
    match threshold
    case None => Ok(Verdict(false, Text("Tolerant validation failed: similarity threshold not provided")))
    case Some(t) =>
      match ArtifactHash(fs, p, digest, Sha256)
      case Err(e) => Err(e)
      case Ok(current) =>
        if reference == "" then Ok(Verdict(false, Text("Tolerant validation failed: reference hash is empty")))
        else
          var s := Similarity(current, reference);
          Ok(Verdict(s >= t, SimilarityReport(s >= t, s, t)))
  }

  // -------------------------------------------------------------- standard

  function Abs(x: real): real {
    if x < 0.0 then -x else x
  }

  function Max(x: real, y: real): real {
    if x < y then y else x
  }

  /** `compare_numeric_values` over reals. */
  function CompareNumeric(v1: real, v2: real, tolAbs: Option<real>, tolRel: Option<real>): bool {
    if tolAbs.Some? && Abs(v1 - v2) <= tolAbs.value then true
    else if tolRel.Some? && v1 == 0.0 && v2 == 0.0 then true
    else if tolRel.Some? && Max(Abs(v1), Abs(v2)) == 0.0 then false
    else if tolRel.Some? && Abs(v1 - v2) / Max(Abs(v1), Abs(v2)) <= tolRel.value then true
    else if tolAbs.None? && tolRel.None? then v1 == v2
    else false
  }

  /** The outcome of CompareNumeric in terms of the tolerances: within the
      absolute tolerance, within the relative tolerance (two zeros always are),
      or exactly equal when no tolerance is given. */
  lemma CompareNumericMeaning(v1: real, v2: real, tolAbs: Option<real>, tolRel: Option<real>)
    ensures CompareNumeric(v1, v2, tolAbs, tolRel) <==>
              || (tolAbs.Some? && Abs(v1 - v2) <= tolAbs.value)
              || (tolRel.Some? && v1 == 0.0 && v2 == 0.0)
              || (tolRel.Some? && Max(Abs(v1), Abs(v2)) != 0.0 &&
                  Abs(v1 - v2) <= tolRel.value * Max(Abs(v1), Abs(v2)))
              || (tolAbs.None? && tolRel.None? && v1 == v2)
  {
    var m := Max(Abs(v1), Abs(v2));
    if tolRel.Some? && m != 0.0 {
      assert m > 0.0;
      DivLe(Abs(v1 - v2), m, tolRel.value);
    }
  }

  lemma DivLe(x: real, m: real, t: real)
    requires m > 0.0
    ensures x / m <= t <==> x <= t * m
  {
    assert x == (x / m) * m;
  }

  /** The comparison does not depend on the order of the two values. */
  lemma CompareNumericSymmetric(v1: real, v2: real, tolAbs: Option<real>, tolRel: Option<real>)
    ensures CompareNumeric(v1, v2, tolAbs, tolRel) == CompareNumeric(v2, v1, tolAbs, tolRel)
  {
    assert Abs(v1 - v2) == Abs(v2 - v1);
    assert Max(Abs(v1), Abs(v2)) == Max(Abs(v2), Abs(v1));
  }

  /** A value equals itself under any non-negative tolerances; a negative
      absolute tolerance alone rejects even equal values. */
  lemma CompareNumericReflexive(v: real, tolAbs: Option<real>, tolRel: Option<real>)
    ensures (tolAbs.None? || tolAbs.value >= 0.0) && (tolRel.None? || tolRel.value >= 0.0)
            ==> CompareNumeric(v, v, tolAbs, tolRel)
    ensures tolAbs.Some? && tolAbs.value < 0.0 && tolRel.None? ==> !CompareNumeric(v, v, tolAbs, tolRel)
  {
  }

  /** Widening either tolerance never turns an accepted pair into a rejected one. */
  lemma CompareNumericMonotone(v1: real, v2: real, a: real, a': real, rel: real, rel': real)
    requires a <= a' && rel <= rel'
    requires CompareNumeric(v1, v2, Some(a), Some(rel))
    ensures CompareNumeric(v1, v2, Some(a'), Some(rel'))
  {
  }

  /** `Path.suffix` of a final path component: from the last dot, provided the
      dot is neither the first nor the last character. */
  function Suffix(name: string): (s: string)
    ensures s == "" || (|s| < |name| && s == name[|name| - |s|..] && s[0] == '.')
  {
    LastDotSuffix(name, |name|)
  }

  function LastDotSuffix(name: string, i: nat): (s: string)
    requires i <= |name|
    ensures s == "" || (|s| < |name| && s == name[|name| - |s|..] && s[0] == '.')
    decreases i
  {
    if i == 0 then ""
    else if name[i - 1] == '.' then
      (if 0 < i - 1 < |name| - 1 then name[i - 1..] else "")
    else LastDotSuffix(name, i - 1)
  }

  function Name(p: Path): string {
    if p == [] then "" else p[|p| - 1]
  }

  /** A file type for which a tolerance-aware comparison is attempted. */
  predicate Specialized(p: Path, tolAbs: Option<real>, tolRel: Option<real>) {
    Suffix(Name(p)) in [".csv", ".json", ".npy", ".npz"] && (tolAbs.Some? || tolRel.Some?)
  }

  /** `validate_standard`: no specialized comparison is implemented, so the
      success flag is plain hash equality for files and directories alike;
      the file type and tolerances only select the failure message. */
  function ValidateStandard(fs: FileSystem, p: Path, reference: string, tolAbs: Option<real>,
                            tolRel: Option<real>, digest: Digest): (r: Result<Verdict, string>)
    ensures ArtifactHash(fs, p, digest, Sha256).Err? ==> r == Err(ArtifactHash(fs, p, digest, Sha256).error)
    ensures r.Ok? ==> (r.value.success <==> ArtifactHash(fs, p, digest, Sha256) == Ok(reference))
  {
    if IsFile(fs, p) then
      var attemptSpecialized := Specialized(p, tolAbs, tolRel);
      match ArtifactHash(fs, p, digest, Sha256)
      case Err(e) => Err(e)
      case Ok(current) =>
        if current == reference then Ok(Verdict(true, Text("Standard validation passed: exact hash match")))
        else if attemptSpecialized then
          Ok(Verdict(false, Text("Standard validation failed: specialized comparison did not succeed and hash mismatch")))
        else Ok(Verdict(false, Text("Standard validation failed: hash mismatch")))
    else
      match ArtifactHash(fs, p, digest, Sha256)
      case Err(e) => Err(e)
      case Ok(current) =>
        if current == reference then Ok(Verdict(true, Text("Standard validation passed: exact hash match for directory")))
        else Ok(Verdict(false, Text("Standard validation failed: directory hash mismatch")))
  }

  /** The tolerances never change the standard verdict's success flag; they
      only change the failure message of a specialized file type. */
  lemma StandardIgnoresTolerances(fs: FileSystem, p: Path, reference: string, tolAbs: Option<real>,
                                  tolRel: Option<real>, digest: Digest)
    ensures ValidateStandard(fs, p, reference, tolAbs, tolRel, digest).Ok?
              == ValidateStandard(fs, p, reference, None, None, digest).Ok?
    ensures ValidateStandard(fs, p, reference, tolAbs, tolRel, digest).Ok? ==>
              ValidateStandard(fs, p, reference, tolAbs, tolRel, digest).value.success
                == ValidateStandard(fs, p, reference, None, None, digest).value.success
    ensures !Specialized(p, tolAbs, tolRel) ==>
              ValidateStandard(fs, p, reference, tolAbs, tolRel, digest)
                == ValidateStandard(fs, p, reference, None, None, digest)
  {
  }

  // ------------------------------------------------------------ dispatcher

  /** `validate_artifact`: existence, the exact-match fast path, then the
      check of the validation type, with errors turned into failed verdicts. */
  function ValidateArtifact(fs: FileSystem, p: Path, reference: string, validationType: string,
                            tolAbs: Option<real>, tolRel: Option<real>, threshold: Option<real>,
                            digest: Digest): (v: Verdict)
    ensures !Exists(fs, p) ==> v == Verdict(false, Text("Artifact does not exist: " + Show(p)))
    ensures Exists(fs, p) && ArtifactHash(fs, p, digest, Sha256) == Ok(reference) ==>
              v == Verdict(true, Text("Exact hash match"))
  {
    if !Exists(fs, p) then Verdict(false, Text("Artifact does not exist: " + Show(p)))
    else
      var initial := ArtifactHash(fs, p, digest, Sha256);
      if initial == Ok(reference) then Verdict(true, Text("Exact hash match"))
      else if validationType == "strict" then
        if initial.Ok? then Verdict(false, Text("Strict validation failed: hash mismatch"))
        else Verdict(false, Text("Strict validation failed: could not calculate hash - " + initial.error))
      else
        var specific :=
          if validationType == "standard" then ValidateStandard(fs, p, reference, tolAbs, tolRel, digest)
          else if validationType == "tolerant" then ValidateTolerant(fs, p, reference, threshold, digest)
          else Ok(Verdict(false, Text("Unknown validation type: " + validationType)));
        match specific
        case Ok(verdict) => verdict
        case Err(e) =>
          Verdict(false, Text("Validation error during '" + validationType + "' mode specific check: " + e))
  }

  /** The artifact's hash matches the reference. */
  predicate HashMatches(fs: FileSystem, p: Path, reference: string, digest: Digest) {
    Exists(fs, p) && ArtifactHash(fs, p, digest, Sha256) == Ok(reference)
  }

  /** Strict and standard validation both pass exactly on a hash match; every
      other type except "tolerant" (including "ignore") passes only then too,
      and fails with "Unknown validation type" on a mismatch. */
  lemma ValidateArtifactExactTypes(fs: FileSystem, p: Path, reference: string, validationType: string,
                                   tolAbs: Option<real>, tolRel: Option<real>, threshold: Option<real>,
                                   digest: Digest)
    requires validationType != "tolerant"
    ensures ValidateArtifact(fs, p, reference, validationType, tolAbs, tolRel, threshold, digest).success <==>
              HashMatches(fs, p, reference, digest)
    ensures validationType !in {"strict", "standard"} && Exists(fs, p) && !HashMatches(fs, p, reference, digest)
            ==> ValidateArtifact(fs, p, reference, validationType, tolAbs, tolRel, threshold, digest)
                  == Verdict(false, Text("Unknown validation type: " + validationType))
  {
  }

  /** A strict mismatch reports the mismatch; a strict hashing error reports
      its cause. */
  lemma ValidateArtifactStrictMessages(fs: FileSystem, p: Path, reference: string,
                                       tolAbs: Option<real>, tolRel: Option<real>, threshold: Option<real>,
                                       digest: Digest)
    requires Exists(fs, p) && !HashMatches(fs, p, reference, digest)
    ensures ArtifactHash(fs, p, digest, Sha256).Ok? ==>
              ValidateArtifact(fs, p, reference, "strict", tolAbs, tolRel, threshold, digest)
                == Verdict(false, Text("Strict validation failed: hash mismatch"))
    ensures ArtifactHash(fs, p, digest, Sha256).Err? ==>
              ValidateArtifact(fs, p, reference, "strict", tolAbs, tolRel, threshold, digest)
                == Verdict(false, Text("Strict validation failed: could not calculate hash - "
                                       + ArtifactHash(fs, p, digest, Sha256).error))
  {
  }

  /** Tolerant validation passes on a hash match, or when a threshold is given,
      the reference is not empty and the similarity reaches the threshold. */
  lemma ValidateArtifactTolerant(fs: FileSystem, p: Path, reference: string,
                                 tolAbs: Option<real>, tolRel: Option<real>, threshold: Option<real>,
                                 digest: Digest)
    ensures ValidateArtifact(fs, p, reference, "tolerant", tolAbs, tolRel, threshold, digest).success <==>
              || HashMatches(fs, p, reference, digest)
              || (&& Exists(fs, p) && ArtifactHash(fs, p, digest, Sha256).Ok? && threshold.Some?
                  && reference != ""
                  && Similarity(ArtifactHash(fs, p, digest, Sha256).value, reference) >= threshold.value)
  {
  }

  /** An error in a tier-specific check becomes a failed verdict naming the
      validation type and the cause. */
  lemma ValidateArtifactCatches(fs: FileSystem, p: Path, reference: string, validationType: string,
                                tolAbs: Option<real>, tolRel: Option<real>, threshold: Option<real>,
                                digest: Digest)
    requires Exists(fs, p) && ArtifactHash(fs, p, digest, Sha256).Err?
    requires validationType == "standard" || (validationType == "tolerant" && threshold.Some?)
    ensures ValidateArtifact(fs, p, reference, validationType, tolAbs, tolRel, threshold, digest)
              == Verdict(false, Text("Validation error during '" + validationType + "' mode specific check: "
                                     + ArtifactHash(fs, p, digest, Sha256).error))
  {
  }
}
