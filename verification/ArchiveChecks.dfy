/** The packer and the inspector agree: untouched archives pass, changed ones are refused, truncated ones only warn. */
module ArchiveChecks {
  import opened Prelude
  import opened Strings
  import opened Checksums
  import opened Archive

  // ---------------------------------------------------------------- the manifest of a packed archive

  /** Every payload member has a name the manifest keeps. */
  predicate SafePayload(files: Files) {
    forall n <- files :: !IsDerived(n) ==> SafeName(n) && OneLine(n)
  }

  function Digests(sv: Services, files: Files): map<string, string> {
    map n | n in files && !IsDerived(n) :: sv.sha(files[n])
  }

  function DigestsOf(sv: Services, files: Files, paths: seq<string>): map<string, string> {
    map n | n in files && n in paths && !IsDerived(n) :: sv.sha(files[n])
  }

  lemma DigestsStep(sv: Services, files: Files, paths: seq<string>, found: map<string, string>)
    requires paths != [] && paths[0] in files
    ensures var p, tail := paths[0], paths[1..];
            found + DigestsOf(sv, files, paths) ==
            (if IsDerived(p) then found else found[p := sv.sha(files[p])]) + DigestsOf(sv, files, tail)
  {
    hide IsDerived;
    assert forall n :: n in paths <==> n == paths[0] || n in paths[1..];
  }

  lemma {:induction false} RecordedEntries(sv: Services, files: Files, paths: seq<string>, found: map<string, string>)
    requires forall p <- paths :: p in files
    ensures Recorded(Entries(sv, files, paths), found) == found + DigestsOf(sv, files, paths)
    decreases |paths|
  {
    hide IsDerived;
    if paths != [] {
      var p, tail := paths[0], paths[1..];
      assert p in paths;
      DigestsStep(sv, files, paths, found);
      if IsDerived(p) {
        RecordedEntries(sv, files, tail, found);
        assert Entries(sv, files, paths) == Entries(sv, files, tail);
      } else {
        var e := (p, sv.sha(files[p]));
        RecordedEntries(sv, files, tail, found[p := e.1]);
        assert Entries(sv, files, paths)[0] == e && Entries(sv, files, paths)[1..] == Entries(sv, files, tail);
      }
    }
  }

  lemma {:induction false} EntriesSafe(sv: Services, files: Files, paths: seq<string>)
    requires sv.Sound() && SafePayload(files) && forall p <- paths :: p in files
    ensures SafeEntries(Entries(sv, files, paths))
  {
    if paths != [] {
      assert paths[0] in paths;
      EntriesSafe(sv, files, paths[1..]);
      assert IsDigest(sv.sha(files[paths[0]]));
    }
  }

  /** Everything but the three documents that every packing writes anew. */
  predicate IsPayload(name: string) { name !in {"README.txt", "metadata.json", "checksums.txt"} }

  lemma PackedManifest(sv: Services, files: Files, paths: seq<string>, meta: Meta)
    requires sv.Sound() && SafePayload(files) && Lists(paths, files.Keys)
    ensures ManifestOf(Rewritten(sv, files, paths, meta)) == Digests(sv, files)
    ensures var packed := Rewritten(sv, files, paths, meta);
            && packed["README.txt"] == sv.readme(meta) && packed["metadata.json"] == sv.writeMeta(meta)
            && (forall n :: n in ManifestOf(packed) <==> n in files && IsPayload(n))
            && (forall n :: n in files && IsPayload(n) ==>
                  && n in packed && packed[n] == files[n]
                  && n in ManifestOf(packed) && ManifestOf(packed)[n] == sv.sha(files[n]))
  {
    hide ParseLines, Lines, PrintChecksums, Recorded, Entries, SafeEntries, IsDigest;
    EntriesSafe(sv, files, paths);
    ManifestRoundTrip(sv.comments, Entries(sv, files, paths));
    RecordedEntries(sv, files, paths, map[]);
    assert map[] + DigestsOf(sv, files, paths) == Digests(sv, files);
  }

  // ---------------------------------------------------------------- every archive

  /** A recorded payload member that is there with another digest. */
  predicate IsWrong(sv: Services, files: Files, manifest: map<string, string>, n: string) {
    n in manifest && IsPayload(n) && n in files && sv.sha(files[n]) != Lower(manifest[n])
  }

  predicate IsRight(sv: Services, files: Files, manifest: map<string, string>, n: string) {
    n in manifest && IsPayload(n) && n in files && sv.sha(files[n]) == Lower(manifest[n])
  }

  predicate IsLost(files: Files, manifest: map<string, string>, n: string) {
    n in manifest && IsPayload(n) && n !in files
  }

  /** The archive says that it is a backup of this application. */
  predicate IsOurs(sv: Services, files: Files) {
    "metadata.json" in files && sv.readMeta(files["metadata.json"]).Some?
    && sv.readMeta(files["metadata.json"]).value.app == "rotbeland"
  }

  /** There is something to restore from: a script, or a binary dump and the tool for it. */
  predicate HasScript(files: Files, tools: Tools) {
    "sql/dump.sql" in files || ("sql/pgdump.dump" in files && tools.pgRestore) || "sql/data_only.sql" in files
  }

  /** The whole script is preferred to the binary dump, and that to the script without the schema. */
  predicate IsChosen(files: Files, tools: Tools, script: string, executor: string) {
    if "sql/dump.sql" in files then script == "sql/dump.sql" && executor == (if tools.psql then "psql" else "sqlalchemy")
    else if "sql/pgdump.dump" in files && tools.pgRestore then script == "sql/pgdump.dump" && executor == "pg_restore"
    else script == "sql/data_only.sql" && executor == (if tools.psql then "psql" else "sqlalchemy")
  }

  /** Exactly what there is to warn about, and how many members are right. */
  ghost predicate IsNoted(sv: Services, files: Files, manifest: map<string, string>, warnings: seq<Warning>, verified: nat) {
    && (forall n :: MissingMember(n) in warnings <==> IsLost(files, manifest, n))
    && (forall n :: WrongDigest(n) in warnings <==> IsWrong(sv, files, manifest, n))
    && (NoManifest in warnings <==> manifest == map[])
    && (NothingVerified in warnings <==> manifest != map[] && forall n :: !IsRight(sv, files, manifest, n))
    && verified == |set n | n in manifest && IsRight(sv, files, manifest, n)|
  }

  lemma {:induction false} WarningsMean(sv: Services, files: Files, manifest: map<string, string>, order: seq<string>)
    requires forall n <- order :: n in manifest
    ensures var w := WarningsOf(sv, files, manifest, order);
            && (forall n :: MissingMember(n) in w <==> n in order && IsLost(files, manifest, n))
            && (forall n :: WrongDigest(n) in w <==> n in order && IsWrong(sv, files, manifest, n))
            && NoManifest !in w && NothingVerified !in w
  {
    if order != [] {
      WarningsMean(sv, files, manifest, order[1..]);
      var n := order[0];
      DigestCases(sv, files, manifest, n);
      hide Lower, IsLost, IsWrong, IsRight, IsDerived, Mismatched;
      assert forall k :: k in order <==> k == n || k in order[1..];
    }
  }

  lemma DigestCases(sv: Services, files: Files, manifest: map<string, string>, n: string)
    requires n in manifest
    ensures Mismatched(sv, files, manifest, n) <==> IsWrong(sv, files, manifest, n)
    ensures Verifies(sv, files, manifest, n) <==> IsRight(sv, files, manifest, n)
    ensures !IsDerived(n) && n !in files <==> IsLost(files, manifest, n)
    ensures IsWrong(sv, files, manifest, n) ==> !IsDerived(n) && n in files
  {}

  function RightOnes(sv: Services, files: Files, manifest: map<string, string>, order: seq<string>): set<string> {
    set n | n in order && IsRight(sv, files, manifest, n)
  }

  lemma RightStep(sv: Services, files: Files, manifest: map<string, string>, order: seq<string>)
    requires order != [] && order[0] !in order[1..]
    ensures var later := RightOnes(sv, files, manifest, order[1..]);
            && order[0] !in later
            && RightOnes(sv, files, manifest, order) ==
               later + if IsRight(sv, files, manifest, order[0]) then {order[0]} else {}
  {
    hide IsRight;
    assert forall n :: n in order <==> n == order[0] || n in order[1..];
  }

  lemma {:induction false} VerifiedMeans(sv: Services, files: Files, manifest: map<string, string>, order: seq<string>)
    requires forall i, j :: 0 <= i < j < |order| ==> order[i] != order[j]
    requires forall n <- order :: n in manifest
    ensures VerifiedOf(sv, files, manifest, order) == |RightOnes(sv, files, manifest, order)|
  {
    if order != [] {
      VerifiedMeans(sv, files, manifest, order[1..]);
      DigestCases(sv, files, manifest, order[0]);
      RightStep(sv, files, manifest, order);
      hide IsRight, IsWrong, IsLost, Verifies, Mismatched, RightOnes, IsDerived;
    } else {
      assert RightOnes(sv, files, manifest, order) == {};
    }
  }

  lemma FirstWrong(sv: Services, files: Files, manifest: map<string, string>, order: seq<string>)
    requires Lists(order, manifest.Keys)
    ensures var bad := FirstMismatch(sv, files, manifest, order);
            && (bad.Some? <==> exists n :: IsWrong(sv, files, manifest, n))
            && (bad.Some? ==> IsWrong(sv, files, manifest, bad.value))
  {
    FirstMismatchIsMismatch(sv, files, manifest, order);
    forall n | n in manifest ensures Mismatched(sv, files, manifest, n) <==> IsWrong(sv, files, manifest, n) {
      DigestCases(sv, files, manifest, n);
    }
    assert forall n :: IsWrong(sv, files, manifest, n) ==> n in manifest;
    hide IsWrong, Mismatched;
  }

  /**
   The verdict on any archive: which refusal it gets, and otherwise exactly what it is warned about, how many members are
   right and what it is restored from.
   */
  lemma VerdictExactly(sv: Services, files: Files, order: seq<string>, strict: bool, tools: Tools)
    requires Lists(order, ManifestOf(files).Keys)
    ensures var r, manifest := Inspection(sv, files, order, strict, tools), ManifestOf(files);
            var refused := strict && exists n :: IsWrong(sv, files, manifest, n);
            && (r == Err(NoMetadata) <==> "metadata.json" !in files)
            && (r == Err(BadMetadata) <==> "metadata.json" in files && sv.readMeta(files["metadata.json"]).None?)
            && (r == Err(WrongApp) <==>
                  "metadata.json" in files && sv.readMeta(files["metadata.json"]).Some? && !IsOurs(sv, files))
            && (r.Err? && r.error.Tampered? <==> IsOurs(sv, files) && refused)
            && (r.Err? && r.error.Tampered? ==> IsWrong(sv, files, manifest, r.error.name))
            && (r == Err(NoScript) <==> IsOurs(sv, files) && !refused && !HasScript(files, tools))
            && (r.Ok? ==> IsNoted(sv, files, manifest, r.value.warnings, r.value.verified)
                          && IsChosen(files, tools, r.value.script, r.value.executor))
  {
    RefusalsMean(sv, files, order, strict, tools);
    ReportMeans(sv, files, order, strict, tools);
    hide Inspection, IsOurs, HasScript, IsChosen, IsNoted, IsWrong, Lists, ManifestOf;
  }

  lemma ScriptMeans(files: Files, tools: Tools)
    ensures match ChooseScript(files, tools)
            case None => !HasScript(files, tools)
            case Some((script, executor)) => HasScript(files, tools) && IsChosen(files, tools, script, executor)
  {}

  lemma RefusalsMean(sv: Services, files: Files, order: seq<string>, strict: bool, tools: Tools)
    requires Lists(order, ManifestOf(files).Keys)
    ensures var r, manifest := Inspection(sv, files, order, strict, tools), ManifestOf(files);
            var refused := strict && exists n :: IsWrong(sv, files, manifest, n);
            && (r == Err(NoMetadata) <==> "metadata.json" !in files)
            && (r == Err(BadMetadata) <==> "metadata.json" in files && sv.readMeta(files["metadata.json"]).None?)
            && (r == Err(WrongApp) <==>
                  "metadata.json" in files && sv.readMeta(files["metadata.json"]).Some? && !IsOurs(sv, files))
            && (r.Err? && r.error.Tampered? <==> IsOurs(sv, files) && refused)
            && (r.Err? && r.error.Tampered? ==> IsWrong(sv, files, manifest, r.error.name))
            && (r == Err(NoScript) <==> IsOurs(sv, files) && !refused && !HasScript(files, tools))
  {
    FirstWrong(sv, files, ManifestOf(files), order);
    ScriptMeans(files, tools);
    hide WarningsOf, VerifiedOf, FirstMismatch, ManifestOf, IsWrong, Lists, HasScript, IsChosen, ChooseScript;
  }

  lemma ReportMeans(sv: Services, files: Files, order: seq<string>, strict: bool, tools: Tools)
    requires Lists(order, ManifestOf(files).Keys)
    ensures var r := Inspection(sv, files, order, strict, tools);
            r.Ok? ==> IsNoted(sv, files, ManifestOf(files), r.value.warnings, r.value.verified)
                      && IsChosen(files, tools, r.value.script, r.value.executor)
  {
    NotesMean(sv, files, ManifestOf(files), order);
    ScriptMeans(files, tools);
    hide WarningsOf, VerifiedOf, FirstMismatch, ManifestOf, IsNoted, Lists, HasScript, IsChosen, ChooseScript;
  }

  lemma NotesMean(sv: Services, files: Files, manifest: map<string, string>, order: seq<string>)
    requires Lists(order, manifest.Keys)
    ensures var warnings, verified := WarningsOf(sv, files, manifest, order), VerifiedOf(sv, files, manifest, order);
            IsNoted(sv, files, manifest,
                    if manifest == map[] then [NoManifest] else if verified == 0 then warnings + [NothingVerified] else warnings,
                    verified)
  {
    VerifiedMeans(sv, files, manifest, order);
    RightOnesListed(sv, files, manifest, order);
    PlainNotes(sv, files, manifest, order);
    var warnings, verified := WarningsOf(sv, files, manifest, order), VerifiedOf(sv, files, manifest, order);
    hide WarningsOf, VerifiedOf, ArePlain, IsRight, RightOnes, Lists, IsNoted;
    if manifest == map[] {
      NoManifestNotes(sv, files, manifest, verified);
    } else {
      ManifestNotes(sv, files, manifest, warnings, verified);
    }
  }

  /** The warnings about single members. */
  ghost predicate ArePlain(sv: Services, files: Files, manifest: map<string, string>, warnings: seq<Warning>) {
    && (forall n :: MissingMember(n) in warnings <==> IsLost(files, manifest, n))
    && (forall n :: WrongDigest(n) in warnings <==> IsWrong(sv, files, manifest, n))
    && NoManifest !in warnings && NothingVerified !in warnings
  }

  lemma PlainNotes(sv: Services, files: Files, manifest: map<string, string>, order: seq<string>)
    requires Lists(order, manifest.Keys)
    ensures ArePlain(sv, files, manifest, WarningsOf(sv, files, manifest, order))
  {
    WarningsMean(sv, files, manifest, order);
    WrongIsRecorded(sv, files, manifest);
    assert forall n :: n in order <==> n in manifest;
    hide WarningsOf, IsWrong, IsLost, Lists;
  }

  lemma NoManifestNotes(sv: Services, files: Files, manifest: map<string, string>, verified: nat)
    requires manifest == map[] && verified == |set n | n in manifest && IsRight(sv, files, manifest, n)|
    ensures IsNoted(sv, files, manifest, [NoManifest], verified)
  {
    NothingRecorded(sv, files);
    hide IsWrong, IsLost, IsRight;
  }

  lemma ManifestNotes(
    sv: Services, files: Files, manifest: map<string, string>, warnings: seq<Warning>, verified: nat)
    requires manifest != map[] && ArePlain(sv, files, manifest, warnings)
    requires verified == |set n | n in manifest && IsRight(sv, files, manifest, n)|
    requires verified == 0 <==> forall n :: !IsRight(sv, files, manifest, n)
    ensures IsNoted(sv, files, manifest, if verified == 0 then warnings + [NothingVerified] else warnings, verified)
  {
    hide IsWrong, IsLost, IsRight;
    var all := warnings + [NothingVerified];
    assert forall n :: MissingMember(n) in all <==> MissingMember(n) in warnings;
    assert forall n :: WrongDigest(n) in all <==> WrongDigest(n) in warnings;
    assert NoManifest !in all && NothingVerified in all;
  }

  lemma WrongIsRecorded(sv: Services, files: Files, manifest: map<string, string>)
    ensures forall n :: IsWrong(sv, files, manifest, n) || IsLost(files, manifest, n) ==> n in manifest
  {}

  lemma NothingRecorded(sv: Services, files: Files)
    ensures forall n :: !IsWrong(sv, files, map[], n) && !IsLost(files, map[], n) && !IsRight(sv, files, map[], n)
  {}

  lemma RightOnesListed(sv: Services, files: Files, manifest: map<string, string>, order: seq<string>)
    requires Lists(order, manifest.Keys)
    ensures var right := RightOnes(sv, files, manifest, order);
            && right == (set n | n in manifest && IsRight(sv, files, manifest, n))
            && (|right| == 0 <==> forall n :: !IsRight(sv, files, manifest, n))
  {
    var right := RightOnes(sv, files, manifest, order);
    assert forall n :: IsRight(sv, files, manifest, n) ==> n in manifest && n in right;
    hide IsRight;
    assert |right| == 0 <==> right == {};
  }

  // ---------------------------------------------------------------- packed archives

  lemma {:induction false} NoneFlagged(sv: Services, files: Files, checksums: map<string, string>, order: seq<string>)
    requires forall n <- order :: n in checksums && Verifies(sv, files, checksums, n)
    ensures WarningsOf(sv, files, checksums, order) == []
    ensures VerifiedOf(sv, files, checksums, order) == |order|
  {
    if order != [] {
      assert order[0] in order;
      NoneFlagged(sv, files, checksums, order[1..]);
    }
  }

  lemma DigestsVerify(sv: Services, files: Files, n: string)
    requires sv.Sound() && n in Digests(sv, files)
    ensures Lower(Digests(sv, files)[n]) == sv.sha(files[n])
  {
    assert IsDigest(sv.sha(files[n]));
    DigestFacts(sv.sha(files[n]));
  }

  /** A freshly packed archive passes the strict check with no warning, and every payload member is verified. */
  lemma PackedArchivePasses(
    sv: Services, files: Files, paths: seq<string>, meta: Meta, order: seq<string>, tools: Tools)
    requires sv.Sound() && SafePayload(files) && Lists(paths, files.Keys)
    requires meta.app == APP_NAME && DUMP_SQL in files
    requires Lists(order, Digests(sv, files).Keys)
    ensures var packed := Rewritten(sv, files, paths, meta);
            && ManifestOf(packed) == Digests(sv, files)
            && Inspection(sv, packed, order, true, tools) ==
               Ok(Report([], |order|, DUMP_SQL, if tools.psql then "psql" else "sqlalchemy"))
  {
    hide ParseLines, Lines, PrintChecksums, Entries, WarningsOf, VerifiedOf, Lower, SafePayload;
    var packed := Rewritten(sv, files, paths, meta);
    PackedManifest(sv, files, paths, meta);
    forall n | n in order ensures Verifies(sv, packed, ManifestOf(packed), n) {
      DigestsVerify(sv, files, n);
    }
    NoneFlagged(sv, packed, ManifestOf(packed), order);
    assert DUMP_SQL in Digests(sv, files);
    assert DUMP_SQL in order;
  }

  /** A payload member that is still there with another digest. */
  predicate Altered(sv: Services, files: Files, changed: Files, name: string) {
    name in files && !IsDerived(name) && name in changed && sv.sha(changed[name]) != sv.sha(files[name])
  }

  /** One warning for every listed member that is not there. */
  function Missing(order: seq<string>, files: Files): (warnings: seq<Warning>)
    ensures |warnings| <= |order|
  {
    if order == [] then [] else (if order[0] in files then [] else [MissingMember(order[0])]) + Missing(order[1..], files)
  }

  /**
   Whatever is done to the other members of a packed archive, as long as its manifest and metadata are untouched: the
   strict check refuses it as tampered exactly when a payload member that is still there has another digest, and names
   such a member. Otherwise each missing member is a warning, and there has to be a script left to restore from.
   */
  lemma ChangedMembersRefused(
    sv: Services, files: Files, paths: seq<string>, meta: Meta, order: seq<string>, tools: Tools, changed: Files)
    requires sv.Sound() && SafePayload(files) && Lists(paths, files.Keys)
    requires meta.app == APP_NAME && DUMP_SQL in files
    requires Lists(order, Digests(sv, files).Keys)
    requires var packed := Rewritten(sv, files, paths, meta);
             && CHECKSUMS in changed && changed[CHECKSUMS] == packed[CHECKSUMS]
             && METADATA in changed && changed[METADATA] == packed[METADATA]
    ensures ManifestOf(changed) == Digests(sv, files)
    ensures var r := Inspection(sv, changed, order, true, tools);
            && (r.Err? && r.error.Tampered? <==> exists n <- files :: Altered(sv, files, changed, n))
            && (r.Err? && r.error.Tampered? ==> Altered(sv, files, changed, r.error.name))
            && ((forall n <- files :: !Altered(sv, files, changed, n)) ==>
                  r == Unaltered(order, changed, tools))
  {
    hide ParseLines, Lines, PrintChecksums, Entries, FirstMismatch, WarningsOf, VerifiedOf, Lower, SafePayload, Missing;
    PackedManifest(sv, files, paths, meta);
    var checksums := ManifestOf(changed);
    forall n | n in checksums
      ensures Mismatched(sv, changed, checksums, n) <==> Altered(sv, files, changed, n)
    {
      DigestsVerify(sv, files, n);
    }
    assert DUMP_SQL in order && checksums != map[];
    FirstMismatchIsMismatch(sv, changed, checksums, order);
    if FirstMismatch(sv, changed, checksums, order).None? {
      OnlyMissing(sv, changed, checksums, order);
    }
  }

  /** The report on members that are all as packed or missing. */
  function Unaltered(order: seq<string>, files: Files, tools: Tools): Result<Report, Error> {
    var missing := Missing(order, files);
    match ChooseScript(files, tools)
    case None => Err(NoScript)
    case Some((script, executor)) =>
      Ok(Report(if |missing| == |order| then missing + [NothingVerified] else missing,
                |order| - |missing|, script, executor))
  }

  lemma {:induction false} OnlyMissing(sv: Services, files: Files, checksums: map<string, string>, order: seq<string>)
    requires forall n <- order :: n in checksums && !IsDerived(n) && !Mismatched(sv, files, checksums, n)
    ensures WarningsOf(sv, files, checksums, order) == Missing(order, files)
    ensures |Missing(order, files)| + VerifiedOf(sv, files, checksums, order) == |order|
  {
    if order != [] {
      assert order[0] in order;
      OnlyMissing(sv, files, checksums, order[1..]);
    }
  }

  lemma {:induction false} FirstMismatchIsMismatch(
    sv: Services, files: Files, checksums: map<string, string>, order: seq<string>)
    requires forall n <- order :: n in checksums
    ensures var bad := FirstMismatch(sv, files, checksums, order);
            bad.Some? ==> bad.value in order && Mismatched(sv, files, checksums, bad.value)
  {
    if order != [] && !Mismatched(sv, files, checksums, order[0]) {
      FirstMismatchIsMismatch(sv, files, checksums, order[1..]);
    }
  }

  lemma {:induction false} OneMissing(order: seq<string>, files: Files, gone: string)
    requires gone !in files && forall i, j :: 0 <= i < j < |order| ==> order[i] != order[j]
    requires forall n <- order :: n != gone ==> n in files
    ensures Missing(order, files) == if gone in order then [MissingMember(gone)] else []
  {
    if order != [] {
      assert order[0] in order;
      assert order[0] == gone ==> gone !in order[1..];
      OneMissing(order[1..], files, gone);
    }
  }

  /**
   A payload member that is missing altogether is not refused, even by the strict check: all it leaves is
   one warning. (The dump script itself is the exception, because another script is then chosen.)
   */
  lemma MissingMemberOnlyWarns(
    sv: Services, files: Files, paths: seq<string>, meta: Meta, order: seq<string>, tools: Tools, gone: string)
    requires sv.Sound() && SafePayload(files) && Lists(paths, files.Keys)
    requires meta.app == APP_NAME && DUMP_SQL in files
    requires Lists(order, Digests(sv, files).Keys)
    requires gone in files && !IsDerived(gone) && gone != DUMP_SQL
    ensures var cut := Rewritten(sv, files, paths, meta) - {gone};
            && ManifestOf(cut) == Digests(sv, files)
            && var r := Inspection(sv, cut, order, true, tools);
               r.Ok? && r.value.warnings == [MissingMember(gone)] && r.value.verified == |order| - 1
               && r.value.script == DUMP_SQL
  {
    hide SafePayload, Missing, Inspection, ManifestOf;
    var cut := Rewritten(sv, files, paths, meta) - {gone};
    assert forall n <- files :: !Altered(sv, files, cut, n);
    ChangedMembersRefused(sv, files, paths, meta, order, tools, cut);
    assert DUMP_SQL in order && gone in order && DUMP_SQL in cut;
    OneMissing(order, cut, gone);
    AtLeastTwo(order, DUMP_SQL, gone);
  }

  lemma AtLeastTwo(order: seq<string>, a: string, b: string)
    requires a in order && b in order && a != b
    ensures |order| >= 2
  {}

  // ---------------------------------------------------------------- member names

  /** The directories and the names `package_backup` stages a payload under. */
  function JsonMember(table: string): string { "json/" + table + ".json" }

  function CsvMember(table: string): string { "csv/" + table + ".csv" }

  predicate IsPayloadName(tables: set<string>, name: string) {
    || name in {DUMP_SQL, "sql/schema.sql", DATA_SQL, PGDUMP, "restore.sh"}
    || exists t <- tables :: name == JsonMember(t) || name == CsvMember(t)
  }

  /** A path component that survives splitting a path. */
  predicate GoodComponent(c: string) { c != "" && c != "." && '/' !in c }

  /** `Path(name).parts` for a relative path. */
  function PathParts(name: string): seq<string> { DropEmpty(Split(name, '/')) }

  function DropEmpty(pieces: seq<string>): seq<string> {
    if pieces == [] then []
    else (if pieces[0] == "" || pieces[0] == "." then [] else [pieces[0]]) + DropEmpty(pieces[1..])
  }

  /** The archive's members by their name below the top folder. */
  function MemberKeys(names: seq<string>, found: map<string, string>): map<string, string>
    decreases |names|
  {
    if names == [] then found
    else
      var parts := PathParts(names[0]);
      MemberKeys(names[1..], if |parts| < 2 then found else found[Join(parts[1..], "/") := names[0]])
  }

  /** `_member_map` over the regular files of an archive. */
  method MemberMap(names: seq<string>) returns (found: map<string, string>)
    ensures found == MemberKeys(names, map[])
  {
    found := map[];
    for i := 0 to |names|
      invariant MemberKeys(names, map[]) == MemberKeys(names[i..], found)
    {
      var parts := PathParts(names[i]);
      if |parts| < 2 {
        continue;
      }
      found := found[Join(parts[1..], "/") := names[i]];
    }
  }

  lemma {:induction false} DropEmptyKeeps(pieces: seq<string>)
    requires forall p <- pieces :: GoodComponent(p)
    ensures DropEmpty(pieces) == pieces
  {
    if pieces != [] {
      assert pieces[0] in pieces;
      DropEmptyKeeps(pieces[1..]);
    }
  }

  /** A relative name whose components survive splitting. */
  predicate GoodPath(rel: string) { forall c <- Split(rel, '/') :: GoodComponent(c) }

  lemma PathPartsOfPacked(folder: string, rel: string)
    requires GoodComponent(folder) && GoodPath(rel)
    ensures PathParts(folder + "/" + rel) == [folder] + Split(rel, '/')
  {
    var all := [folder] + Split(rel, '/');
    JoinSplit(rel, '/');
    assert all[1..] == Split(rel, '/');
    SplitJoin(all, '/');
    DropEmptyKeeps(all);
  }

  function PackedName(folder: string, rel: string): string { folder + "/" + rel }

  function PackedNames(folder: string, rels: seq<string>): seq<string> {
    seq(|rels|, i requires 0 <= i < |rels| => PackedName(folder, rels[i]))
  }

  /** Every member packed under the top folder is found again, under its own name and no other. */
  lemma {:induction false} PackedMembersFound(folder: string, rels: seq<string>, found: map<string, string>)
    requires GoodComponent(folder) && forall r <- rels :: GoodPath(r)
    ensures MemberKeys(PackedNames(folder, rels), found) == found + map r | r in rels :: PackedName(folder, r)
    decreases |rels|
  {
    hide Split, PathParts, Join, GoodComponent;
    if rels != [] {
      var r := rels[0];
      PathPartsOfPacked(folder, r);
      JoinSplit(r, '/');
      assert ([folder] + Split(r, '/'))[1..] == Split(r, '/');
      assert PackedNames(folder, rels)[1..] == PackedNames(folder, rels[1..]);
      PackedMembersFound(folder, rels[1..], found[r := PackedName(folder, r)]);
      assert forall n :: n in rels <==> n == r || n in rels[1..];
    }
  }

  predicate TableFileName(t: string) { OneLine(t) && '/' !in t }

  lemma OneLineConcat(a: string, b: string)
    requires OneLine(a) && OneLine(b)
    ensures OneLine(a + b)
  {}

  lemma TableMemberSafe(t: string)
    requires TableFileName(t)
    ensures SafeName(JsonMember(t)) && OneLine(JsonMember(t))
    ensures SafeName(CsvMember(t)) && OneLine(CsvMember(t))
  {
    assert OneLine("json/") && OneLine(".json") && OneLine("csv/") && OneLine(".csv");
    OneLineConcat("json/", t);
    OneLineConcat("json/" + t, ".json");
    OneLineConcat("csv/", t);
    OneLineConcat("csv/" + t, ".csv");
    assert JsonMember(t)[|t| + 9] == 'n' && CsvMember(t)[|t| + 7] == 'v';
  }

  /** Every name the packer stages is safe in the manifest, as long as table names are file names of one line. */
  lemma PayloadNamesSafe(tables: set<string>, files: Files)
    requires forall t <- tables :: TableFileName(t)
    requires forall n <- files :: IsDerived(n) || IsPayloadName(tables, n)
    ensures SafePayload(files)
  {
    forall n | n in files && !IsDerived(n) ensures SafeName(n) && OneLine(n) {
      if n in {DUMP_SQL, "sql/schema.sql", DATA_SQL, PGDUMP, "restore.sh"} {
      } else {
        var t :| t in tables && (n == JsonMember(t) || n == CsvMember(t));
        TableMemberSafe(t);
      }
    }
  }

  // ---------------------------------------------------------------- packing, listing and inspecting

  lemma TwoComponents(a: string, b: string)
    requires '/' !in a && '/' !in b
    ensures Split(a + "/" + b, '/') == [a, b]
  {
    assert [a, b][1..] == [b];
    assert Join([a, b], "/") == a + "/" + b;
    SplitJoin([a, b], '/');
  }

  lemma OneComponent(a: string)
    requires '/' !in a
    ensures Split(a, '/') == [a]
  {
    SplitJoin([a], '/');
  }

  lemma GoodInSql(file: string, name: string)
    requires GoodComponent(file) && name == "sql/" + file
    ensures GoodPath(name)
  {
    assert name == "sql" + "/" + file;
    TwoComponents("sql", file);
  }

  lemma GoodAlone(name: string)
    requires GoodComponent(name)
    ensures GoodPath(name)
  {
    OneComponent(name);
  }

  lemma SqlNamesAreGood()
    ensures GoodPath(DUMP_SQL) && GoodPath(DATA_SQL) && GoodPath(PGDUMP) && GoodPath("sql/schema.sql")
  {
    hide GoodPath;
    GoodInSql("dump.sql", DUMP_SQL);
    GoodInSql("data_only.sql", DATA_SQL);
    GoodInSql("pgdump.dump", PGDUMP);
    GoodInSql("schema.sql", "sql/schema.sql");
  }

  lemma FixedNamesAreGood()
    ensures forall n :: n in {DUMP_SQL, "sql/schema.sql", DATA_SQL, PGDUMP, "restore.sh"} || IsDerived(n) ==> GoodPath(n)
  {
    hide GoodPath;
    SqlNamesAreGood();
    GoodAlone("restore.sh");
    GoodAlone(README);
    GoodAlone(METADATA);
    GoodAlone(CHECKSUMS);
  }

  lemma TableMembersAreGood(t: string)
    requires TableFileName(t)
    ensures GoodPath(JsonMember(t)) && GoodPath(CsvMember(t))
  {
    assert JsonMember(t) == "json" + "/" + (t + ".json") && CsvMember(t) == "csv" + "/" + (t + ".csv");
    TwoComponents("json", t + ".json");
    TwoComponents("csv", t + ".csv");
  }

  /** The archive file holds every member under the top folder. */
  predicate Holds(archive: Files, folder: string, packed: Files) {
    forall r <- packed :: PackedName(folder, r) in archive && archive[PackedName(folder, r)] == packed[r]
  }

  /** What the inspector sees of an archive file whose members are listed in some order. */
  function ReadBack(archive: Files, names: seq<string>): Files {
    var found := MemberKeys(names, map[]);
    map r | r in found && found[r] in archive :: archive[found[r]]
  }

  lemma PackedReadsBack(archive: Files, folder: string, packed: Files, rels: seq<string>)
    requires Holds(archive, folder, packed)
    requires GoodComponent(folder) && Lists(rels, packed.Keys) && forall r <- rels :: GoodPath(r)
    ensures ReadBack(archive, PackedNames(folder, rels)) == packed
  {
    hide GoodPath, GoodComponent, MemberKeys, PackedNames, PackedName;
    PackedMembersFound(folder, rels, map[]);
    var found := MemberKeys(PackedNames(folder, rels), map[]);
    assert forall r :: r in found <==> r in packed;
    assert forall r <- packed :: found[r] == PackedName(folder, r);
  }

  /**
   From end to end: staged files, packed under a folder, listed in any order and read back through the member map, pass the
   strict inspection with no warning, and every payload member is verified.
   */
  lemma ArchivePassesInspection(
    sv: Services, tables: set<string>, files: Files, paths: seq<string>, meta: Meta, folder: string,
    archive: Files, rels: seq<string>, order: seq<string>, tools: Tools)
    requires sv.Sound() && meta.app == APP_NAME && DUMP_SQL in files && GoodComponent(folder)
    requires forall t <- tables :: TableFileName(t)
    requires forall n <- files :: IsDerived(n) || IsPayloadName(tables, n)
    requires Lists(paths, files.Keys) && Lists(rels, Rewritten(sv, files, paths, meta).Keys)
    requires Holds(archive, folder, Rewritten(sv, files, paths, meta))
    requires Lists(order, Digests(sv, files).Keys)
    ensures var read := ReadBack(archive, PackedNames(folder, rels));
            && ManifestOf(read) == Digests(sv, files)
            && Inspection(sv, read, order, true, tools) ==
               Ok(Report([], |order|, DUMP_SQL, if tools.psql then "psql" else "sqlalchemy"))
  {
    PayloadNamesSafe(tables, files);
    PackedArchivePasses(sv, files, paths, meta, order, tools);
    var packed := Rewritten(sv, files, paths, meta);
    forall r | r in rels ensures GoodPath(r) {
      assert r in packed;
      StagedIsGood(tables, r);
    }
    hide Inspection, ManifestOf, ReadBack, Rewritten, Holds;
    PackedReadsBack(archive, folder, packed, rels);
  }

  lemma StagedIsGood(tables: set<string>, n: string)
    requires forall t <- tables :: TableFileName(t)
    ensures IsDerived(n) || IsPayloadName(tables, n) ==> GoodPath(n)
  {
    FixedNamesAreGood();
    if t :| t in tables && (n == JsonMember(t) || n == CsvMember(t)) {
      TableMembersAreGood(t);
    }
  }
}
