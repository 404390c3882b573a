/**
 Backup archives: the manifest the packer writes, and the check that refuses a tampered archive.

 An archive is a map from member name to content, with bytes viewed as characters. The digest and the metadata
 format are parameters: `sha` yields a sha256 in hexadecimal, and `readMeta` inverts `writeMeta`.
 */
module Archive {
  import opened Prelude
  import opened Checksums

  datatype Meta = Meta(app: string, rowCounts: map<string, nat>)

  datatype Services = Services(
    sha: string -> string,
    writeMeta: Meta -> string,
    readMeta: string -> Option<Meta>,
    readme: Meta -> string,
    comments: seq<string>)
  {
    ghost predicate Sound() {
      && (forall data :: IsDigest(sha(data)))
      && (forall m :: readMeta(writeMeta(m)) == Some(m))
      && AreComments(comments)
    }
  }

  type Files = map<string, string>

  const APP_NAME := "rotbeland"
  const README := "README.txt"
  const METADATA := "metadata.json"
  const CHECKSUMS := "checksums.txt"
  const DUMP_SQL := "sql/dump.sql"
  const DATA_SQL := "sql/data_only.sql"
  const PGDUMP := "sql/pgdump.dump"

  /** Regenerated on every pack and never hashed. */
  predicate IsDerived(name: string) { name == README || name == METADATA || name == CHECKSUMS }

  /** `order` lists every element of `keys` once. */
  ghost predicate Lists(order: seq<string>, keys: set<string>) {
    && (forall i, j :: 0 <= i < j < |order| ==> order[i] != order[j])
    && (forall n :: n in order <==> n in keys)
  }

  // ---------------------------------------------------------------- packing

  /** The payload members among `paths` with their digests. */
  function Entries(sv: Services, files: Files, paths: seq<string>): seq<(string, string)>
    requires forall p <- paths :: p in files
  {
    if paths == [] then []
    else (if IsDerived(paths[0]) then [] else [(paths[0], sv.sha(files[paths[0]]))]) + Entries(sv, files, paths[1..])
  }

  /** The archive after `_rewrite_metadata`. */
  function Rewritten(sv: Services, files: Files, paths: seq<string>, meta: Meta): Files
    requires forall p <- paths :: p in files
  {
    files[README := sv.readme(meta)]
    [CHECKSUMS := PrintChecksums(sv.comments, Entries(sv, files, paths))]
    [METADATA := sv.writeMeta(meta)]
  }

  lemma {:induction false} EntriesIgnoreDerived(sv: Services, a: Files, b: Files, paths: seq<string>)
    requires forall p <- paths :: p in a && p in b && (!IsDerived(p) ==> a[p] == b[p])
    ensures Entries(sv, a, paths) == Entries(sv, b, paths)
  {
    if paths != [] {
      assert paths[0] in paths;
      EntriesIgnoreDerived(sv, a, b, paths[1..]);
    }
  }

  lemma {:induction false} EntriesAppend(sv: Services, files: Files, paths: seq<string>, last: string)
    requires last in files && forall p <- paths :: p in files
    ensures Entries(sv, files, paths + [last]) ==
            Entries(sv, files, paths) + if IsDerived(last) then [] else [(last, sv.sha(files[last]))]
  {
    if paths != [] {
      assert (paths + [last])[1..] == paths[1..] + [last];
      EntriesAppend(sv, files, paths[1..], last);
    }
  }

  /** Regenerates the derived documents; `paths` is the sorted listing of the unpacked archive. */
  method RewriteMetadata(sv: Services, files: Files, paths: seq<string>, meta: Meta) returns (out: Files)
    requires Lists(paths, files.Keys)
    ensures out == Rewritten(sv, files, paths, meta)
  {
    out := files[README := sv.readme(meta)];
    var entries: seq<(string, string)> := [];
    for i := 0 to |paths|
      invariant out == files[README := sv.readme(meta)]
      invariant forall p <- paths[..i] :: p in out
      invariant entries == Entries(sv, out, paths[..i])
    {
      var path := paths[i];
      assert paths[..i + 1] == paths[..i] + [path];
      EntriesAppend(sv, out, paths[..i], path);
      if !IsDerived(path) {
        entries := entries + [(path, sv.sha(out[path]))];
      }
    }
    assert paths[..|paths|] == paths;
    EntriesIgnoreDerived(sv, out, files, paths);
    out := out[CHECKSUMS := PrintChecksums(sv.comments, entries)];
    out := out[METADATA := sv.writeMeta(meta)];
  }

  // ---------------------------------------------------------------- inspection

  datatype Warning = NoManifest | MissingMember(name: string) | WrongDigest(name: string) | NothingVerified

  datatype Error = NoMetadata | BadMetadata | WrongApp | Tampered(name: string) | NoScript

  datatype Report = Report(warnings: seq<Warning>, verified: nat, script: string, executor: string)

  datatype Tools = Tools(psql: bool, pgRestore: bool)

  predicate Mismatched(sv: Services, files: Files, checksums: map<string, string>, name: string)
    requires name in checksums
  {
    !IsDerived(name) && name in files && sv.sha(files[name]) != Lower(checksums[name])
  }

  predicate Verifies(sv: Services, files: Files, checksums: map<string, string>, name: string)
    requires name in checksums
  {
    !IsDerived(name) && name in files && sv.sha(files[name]) == Lower(checksums[name])
  }

  /** The first member of `order` whose digest is wrong. */
  function FirstMismatch(sv: Services, files: Files, checksums: map<string, string>, order: seq<string>): (r: Option<string>)
    requires forall n <- order :: n in checksums
    ensures r.None? <==> forall n <- order :: !Mismatched(sv, files, checksums, n)
  {
    if order == [] then None
    else if Mismatched(sv, files, checksums, order[0]) then Some(order[0])
    else FirstMismatch(sv, files, checksums, order[1..])
  }

  function WarningsOf(sv: Services, files: Files, checksums: map<string, string>, order: seq<string>): seq<Warning>
    requires forall n <- order :: n in checksums
  {
    if order == [] then []
    else
      var n := order[0];
      (if IsDerived(n) then []
       else if n !in files then [MissingMember(n)]
       else if Mismatched(sv, files, checksums, n) then [WrongDigest(n)]
       else [])
      + WarningsOf(sv, files, checksums, order[1..])
  }

  function VerifiedOf(sv: Services, files: Files, checksums: map<string, string>, order: seq<string>): nat
    requires forall n <- order :: n in checksums
  {
    if order == [] then 0
    else
      (if Verifies(sv, files, checksums, order[0]) then 1 else 0)
      + VerifiedOf(sv, files, checksums, order[1..])
  }

  /** Prefers the transactional SQL script and falls back to the binary dump. */
  function ChooseScript(files: Files, tools: Tools): Option<(string, string)> {
    var sqlTool := if tools.psql then "psql" else "sqlalchemy";
    if DUMP_SQL in files then Some((DUMP_SQL, sqlTool))
    else if PGDUMP in files && tools.pgRestore then Some((PGDUMP, "pg_restore"))
    else if DATA_SQL in files then Some((DATA_SQL, sqlTool))
    else None
  }

  function ManifestOf(files: Files): map<string, string> {
    if CHECKSUMS in files then ParseLines(Lines(files[CHECKSUMS]), map[]) else map[]
  }

  /** The verdict on an archive; `order` is the sorted listing of the manifest. */
  function Inspection(sv: Services, files: Files, order: seq<string>, strict: bool, tools: Tools): Result<Report, Error>
    requires Lists(order, ManifestOf(files).Keys)
  {
    if METADATA !in files then Err(NoMetadata)
    else match sv.readMeta(files[METADATA]) {
      case None => Err(BadMetadata)
      case Some(meta) =>
        var checksums := ManifestOf(files);
        var bad := FirstMismatch(sv, files, checksums, order);
        var warnings := WarningsOf(sv, files, checksums, order);
        var verified := VerifiedOf(sv, files, checksums, order);
        if meta.app != APP_NAME then Err(WrongApp)
        else if strict && bad.Some? then Err(Tampered(bad.value))
        else match ChooseScript(files, tools) {
          case None => Err(NoScript)
          case Some((script, executor)) =>
            Ok(Report(if checksums == map[] then [NoManifest]
                      else if verified == 0 then warnings + [NothingVerified] else warnings,
                      verified, script, executor))
        }
    }
  }

  /** What one recorded member adds to the warnings and to the count. */
  lemma CheckStep(sv: Services, files: Files, checksums: map<string, string>, order: seq<string>, i: nat)
    requires i < |order| && forall n <- order :: n in checksums
    ensures var n, here, next := order[i], order[i..], order[i + 1..];
            && FirstMismatch(sv, files, checksums, here) ==
               (if Mismatched(sv, files, checksums, n) then Some(n) else FirstMismatch(sv, files, checksums, next))
            && WarningsOf(sv, files, checksums, here) ==
               (if IsDerived(n) then []
                else if n !in files then [MissingMember(n)]
                else if Mismatched(sv, files, checksums, n) then [WrongDigest(n)]
                else []) + WarningsOf(sv, files, checksums, next)
            && VerifiedOf(sv, files, checksums, here) ==
               (if Verifies(sv, files, checksums, n) then 1 else 0) + VerifiedOf(sv, files, checksums, next)
  {
    assert order[i..][0] == order[i] && order[i..][1..] == order[i + 1..];
  }

  lemma CheckEnds(sv: Services, files: Files, checksums: map<string, string>)
    ensures FirstMismatch(sv, files, checksums, []) == None
    ensures WarningsOf(sv, files, checksums, []) == [] && VerifiedOf(sv, files, checksums, []) == 0
  {}

  /** Checks every recorded member; in strict mode the first wrong digest ends the check. */
  method CheckMembers(sv: Services, files: Files, checksums: map<string, string>, order: seq<string>, strict: bool)
    returns (bad: Option<string>, warnings: seq<Warning>, verified: nat)
    requires forall n <- order :: n in checksums
    ensures bad == if strict then FirstMismatch(sv, files, checksums, order) else None
    ensures bad.None? ==> warnings == WarningsOf(sv, files, checksums, order)
    ensures bad.None? ==> verified == VerifiedOf(sv, files, checksums, order)
  {
    hide FirstMismatch, WarningsOf, VerifiedOf, IsDerived, Lower;
    bad, warnings, verified := None, [], 0;
    for i := 0 to |order|
      invariant strict ==> FirstMismatch(sv, files, checksums, order) == FirstMismatch(sv, files, checksums, order[i..])
      invariant warnings + WarningsOf(sv, files, checksums, order[i..]) == WarningsOf(sv, files, checksums, order)
      invariant verified + VerifiedOf(sv, files, checksums, order[i..]) == VerifiedOf(sv, files, checksums, order)
    {
      var name := order[i];
      CheckStep(sv, files, checksums, order, i);
      ghost var later := WarningsOf(sv, files, checksums, order[i + 1..]);
      assert [] + later == later;
      if IsDerived(name) {
        continue;
      }
      if name !in files {
        ConcatAssoc(warnings, [MissingMember(name)], later);
        warnings := warnings + [MissingMember(name)];
        continue;
      }
      if sv.sha(files[name]) != Lower(checksums[name]) {
        if strict {
          bad := Some(name);
          return;
        }
        ConcatAssoc(warnings, [WrongDigest(name)], later);
        warnings := warnings + [WrongDigest(name)];
        continue;
      }
      verified := verified + 1;
    }
    CheckEnds(sv, files, checksums);
    assert order[|order|..] == [];
  }

  /** `_inspect_sync`, once the members are mapped to their contents. */
  method Inspect(sv: Services, files: Files, order: seq<string>, strict: bool, tools: Tools) returns (r: Result<Report, Error>)
    requires Lists(order, ManifestOf(files).Keys)
    ensures r == Inspection(sv, files, order, strict, tools)
  {
    if METADATA !in files {
      return Err(NoMetadata);
    }
    var meta := sv.readMeta(files[METADATA]);
    if meta.None? {
      return Err(BadMetadata);
    }
    if meta.value.app != APP_NAME {
      return Err(WrongApp);
    }
    var checksums := map[];
    if CHECKSUMS in files {
      checksums := ParseChecksums(files[CHECKSUMS]);
    }
    var bad, warnings, verified := CheckMembers(sv, files, checksums, order, strict);
    if bad.Some? {
      return Err(Tampered(bad.value));
    }
    if checksums == map[] {
      warnings := [NoManifest];
    } else if verified == 0 {
      warnings := warnings + [NothingVerified];
    }
    match ChooseScript(files, tools) {
      case None => r := Err(NoScript);
      case Some((script, executor)) => r := Ok(Report(warnings, verified, script, executor));
    }
  }
}
