/** The capture pipeline: data files reach --out only after they passed every check, and whichever write fails,
    a failed capture leaves none behind. */
module Pipeline {
  import opened Diagnostics
  import LeakScan
  import LeakSearch
  import opened RawIdentifiers
  import opened Wrappers

  // ----- the manifest

  datatype Status = Complete | Partial | Failed

  datatype LeakCheck = NotRun | Passed | Found

  datatype Manifest = Manifest(status: Status, sanitized: bool, leakCheck: LeakCheck, topologyId: Option<string>,
                               files: map<string, string>, missing: seq<(string, string)>, errors: seq<string>)

  const EMPTY_MANIFEST := Manifest(Failed, false, NotRun, None, map[], [], [])

  /** The names under which files are published. */
  const DATA_FILES: set<string> := {"hwloc.xml", "nvml.json", "nics.json", "links.json", "meta.json"}

  const RECORD_FILES: set<string> := {"diagnostics.txt", "manifest.json", "manifest.json.tmp"}

  /** The error codes a manifest has a message for. */
  const ERROR_CODES: set<string> := {"hwloc_load", "xml_reimport", "links_read", "links_schema", "schema", "leak",
                                     "output_unreadable", "replay", "write_failed", "internal"}

  function ExitFor(leakOrSchema: bool, otherFailure: bool, partial: bool): nat {
    if leakOrSchema then 3 else if otherFailure then 1 else if partial then 2 else 0
  }

  // ----- the directories

  /** A file of --out: some text, or the JSON text of a manifest. */
  datatype Content = Text(text: string) | Json(manifest: Manifest)

  type Files = map<string, Content>

  /** What a step on the disk does: succeeds, or fails and leaves something in the file, or the file as it was. */
  datatype Fault = Fine | Fails(left: Option<Content>)

  /** Nothing but the names given differs. */
  ghost predicate SameBut(a: Files, b: Files, names: set<string>) {
    forall n :: n !in names ==> (n in a <==> n in b) && (n in a ==> a[n] == b[n])
  }

  /** --out and the scratch directory; any step may fail, in any way. */
  class Disk {
    const fault: nat -> Fault
    var steps: nat
    var out: Files
    var scratch: map<string, string>

    constructor (fault: nat -> Fault, out: Files)
      ensures this.fault == fault && steps == 0 && this.out == out && scratch == map[]
    {
      this.fault, steps, this.out, scratch := fault, 0, out, map[];
    }

    /** No step before the n-th fails. */
    ghost predicate FineTo(n: nat) { forall k: nat :: k < n ==> fault(k).Fine? }

    ghost predicate NeverFails() { forall k: nat :: fault(k).Fine? }

    method Write(name: string, content: Content) returns (ok: bool)
      modifies this`steps, this`out
      ensures steps == old(steps) + 1 && (ok <==> fault(old(steps)).Fine?)
      ensures SameBut(old(out), out, {name})
      ensures ok ==> out == old(out)[name := content]
    {
      var f := fault(steps);
      steps := steps + 1;
      ok := f.Fine?;
      if ok {
        out := out[name := content];
      } else if f.left.Some? {
        out := out[name := f.left.value];
      }
    }

    method Remove(name: string)
      modifies this`out
      ensures out == old(out) - {name}
    {
      out := out - {name};
    }

    /** A step that writes no file: a rename or the syncing of a directory. */
    method Step() returns (ok: bool)
      modifies this`steps
      ensures steps == old(steps) + 1 && (ok <==> fault(old(steps)).Fine?)
    {
      ok := fault(steps).Fine?;
      steps := steps + 1;
    }

    method WriteScratch(name: string, text: string) returns (ok: bool)
      modifies this`steps, this`scratch
      ensures steps == old(steps) + 1 && (ok <==> fault(old(steps)).Fine?)
      ensures ok ==> scratch == old(scratch)[name := text]
    {
      ok := fault(steps).Fine?;
      steps := steps + 1;
      if ok {
        scratch := scratch[name := text];
      }
    }

    /** The manifest is written beside its place and renamed into it; no partial manifest is ever in place. */
    method WriteManifest(m: Manifest) returns (ok: bool)
      modifies this`steps, this`out
      ensures SameBut(old(out), out, {"manifest.json", "manifest.json.tmp"})
      ensures "manifest.json.tmp" !in out && (NeverFails() ==> ok)
      ensures ok ==> "manifest.json" in out && out["manifest.json"] == Json(m)
      ensures "manifest.json" in out ==>
                || out["manifest.json"] == Json(m)
                || ("manifest.json" in old(out) && out["manifest.json"] == old(out)["manifest.json"])
    {
      var tmp := "manifest.json.tmp";
      Remove(tmp);
      var written := Write(tmp, Json(m));
      if !written {
        Remove(tmp);
        return false;
      }
      var synced := Step();
      if !synced {
        Remove(tmp);
        return false;
      }
      var renamed := Step();
      if !renamed {
        Remove(tmp);
        return false;
      }
      out := out["manifest.json" := out[tmp]] - {tmp};
      ok := Step();
    }
  }

  // ----- what is captured and what may go wrong on the way

  datatype Nvml = NotRequired | Unavailable(reason: string) | Facts(bytes: string)

  datatype Links = NoLinks | BadLinks(code: string) | LinksDoc(bytes: string)

  /** Where an exception that is no failed write may come from. */
  datatype Crash = NoCrash | Starting | Checking | Publishing(after: nat)

  /** The lines noted by what is not modelled, and the times that other lines name. begun: before the run; read: while
      the sources are read; links: of a links file that is refused; schemas: by the check against the schemas. */
  datatype Notes = Notes(begun: seq<string>, read: seq<string>, links: seq<string>, schemas: seq<string>,
                         emitTime: string, searchTime: string, replayTime: string)

  /** hwlocXml is None when it does not load again; noScratch: no scratch directory could be made. */
  datatype Inputs = Inputs(hwlocXml: Option<string>, nvml: Nvml, nics: string, links: Links, metaDoc: string,
                           raw: seq<RawEntry>, notes: Notes, noScratch: bool, crash: Crash, unreadable: set<string>)

  /** The topology id of a model, or what is wrong with it and in which file. */
  datatype Replayed = Id(id: string) | Invalid(code: string, file: string)

  /** The checks of the capture: one file against its schema, the replay of the files, and the hash of a file's
      bytes. */
  datatype Checks = Checks(schemaOk: (string, string) -> bool, replay: map<string, string> -> Replayed,
                           hash: string -> string)

  /** How a part of the run ends: quietly, or with an exception. */
  datatype Thrown = Quiet | Abort(code: string) | NoScratch | SystemError | OtherError

  /** What is noted of an exception, and the code of the error it is recorded under. */
  ghost predicate HandledBy(thrown: Thrown, lines: seq<string>, code: string) {
    || (thrown == Abort(code) && lines == [])
    || (thrown == NoScratch && lines == ["capture: no scratch directory could be created under TMPDIR"]
        && code == "internal")
    || (thrown == SystemError && lines == ["capture: an output file could not be written"] && code == "write_failed")
    || (thrown == OtherError && lines == ["capture: unexpected exception"] && code == "internal")
  }

  datatype Staged = Staged(name: string, bytes: string)

  ghost predicate ValidInputs(inputs: Inputs) {
    && UniqueEntries(inputs.raw) && (forall e :: e in inputs.raw ==> e.needle != [])
    && (inputs.links.BadLinks? ==> inputs.links.code == "links_read" || inputs.links.code == "links_schema")
  }

  /** The files to publish, in the order they are written. */
  function StagedFiles(inputs: Inputs): seq<Staged>
    requires inputs.hwlocXml.Some? && !inputs.links.BadLinks?
  {
    [Staged("hwloc.xml", inputs.hwlocXml.value)]
    + (if inputs.nvml.Facts? then [Staged("nvml.json", inputs.nvml.bytes)] else [])
    + [Staged("nics.json", inputs.nics)]
    + (if inputs.links.LinksDoc? then [Staged("links.json", inputs.links.bytes)] else [])
    + [Staged("meta.json", inputs.metaDoc)]
  }

  predicate HasSchema(name: string) {
    name == "nvml.json" || name == "nics.json" || name == "links.json" || name == "meta.json"
  }

  /** The files as a directory: the bytes of each name. */
  function AsMap(files: seq<Staged>): map<string, string> {
    if files == [] then map[] else AsMap(files[..|files| - 1])[files[|files| - 1].name := files[|files| - 1].bytes]
  }

  /** Every file but hwloc.xml can be read and passes its schema. */
  ghost predicate SchemasOk(checks: Checks, files: seq<Staged>, unreadable: set<string>) {
    forall f :: f in files && f.name != "hwloc.xml" ==> f.name !in unreadable && checks.schemaOk(f.name, f.bytes)
  }

  /** What the leak search reads: the staged files, and the diagnostics as they stand. */
  function Searched(files: seq<Staged>, diagnostics: string, unreadable: set<string>): (r: seq<LeakSearch.File>)
    ensures |r| == |files| + 1
  {
    var all := files + [Staged("diagnostics.txt", diagnostics)];
    seq(|all|, i requires 0 <= i < |all| =>
      LeakSearch.File(all[i].name, if all[i].name in unreadable then LeakSearch.Unread else LeakSearch.Read(all[i].bytes)))
  }

  lemma {:induction false} AsMapHas(files: seq<Staged>, f: Staged)
    requires f in files && UniqueNames(files)
    ensures f.name in AsMap(files) && AsMap(files)[f.name] == f.bytes
  {
    var last := files[|files| - 1];
    var rest := files[..|files| - 1];
    if f != last {
      assert f in rest;
      AsMapHas(rest, f);
      var i: nat :| i < |rest| && rest[i] == f;
      assert files[i].name != last.name;
    }
  }

  ghost predicate UniqueNames(files: seq<Staged>) {
    forall i, j :: 0 <= i < j < |files| ==> files[i].name != files[j].name
  }

  lemma {:induction false} AsMapKeys(files: seq<Staged>, n: string)
    ensures n in AsMap(files) <==> exists f :: f in files && f.name == n
  {
    if files != [] {
      var rest, last := files[..|files| - 1], files[|files| - 1];
      assert files == rest + [last];
      AsMapKeys(rest, n);
    }
  }

  lemma StagedUnique(inputs: Inputs)
    requires inputs.hwlocXml.Some? && !inputs.links.BadLinks?
    ensures UniqueNames(StagedFiles(inputs))
    ensures forall f :: f in StagedFiles(inputs) ==> f.name in DATA_FILES
  {
  }

  // ----- the diagnostics

  /** The lines noted before the files are staged. */
  function CollectedLines(inputs: Inputs): seq<string> {
    inputs.notes.begun + inputs.notes.read + ["emit: hwloc.xml in " + inputs.notes.emitTime]
  }

  /** The lines noted before the leak search, which it searches. */
  function SearchedLines(inputs: Inputs): seq<string> { CollectedLines(inputs) + inputs.notes.schemas }

  /** The lines noted after a leak search without findings, up to the exit code. */
  function LaterLines(inputs: Inputs, exitCode: nat): seq<string>
    requires inputs.hwlocXml.Some? && !inputs.links.BadLinks?
  {
    [SearchNote(|StagedFiles(inputs)| + 1, 0, inputs.notes.searchTime), ReplayNote(inputs.notes.replayTime),
     ExitNote(exitCode)]
  }

  /** The lines noted about the findings of the leak search. */
  function FindingLines(inputs: Inputs, findings: seq<LeakSearch.Finding>): seq<string>
    requires inputs.hwlocXml.Some? && !inputs.links.BadLinks?
  {
    [SearchNote(|StagedFiles(inputs)| + 1, |findings|, inputs.notes.searchTime)] + LeakNotes(findings)
  }

  lemma NextLine(before: seq<string>, lines: seq<string>, i: nat)
    requires i < |lines|
    ensures before + lines[..i] + [lines[i]] == before + lines[..i + 1]
  {
  }

  lemma TwoLaterLines(inputs: Inputs)
    requires inputs.hwlocXml.Some? && !inputs.links.BadLinks?
    ensures SearchedLines(inputs) + LaterLines(inputs, 0)[..1] + [ReplayNote(inputs.notes.replayTime)]
         == SearchedLines(inputs) + LaterLines(inputs, 0)[..2]
  {
    NextLine(SearchedLines(inputs), LaterLines(inputs, 0), 1);
  }

  lemma NoFindingLines(inputs: Inputs, findings: seq<LeakSearch.Finding>)
    requires inputs.hwlocXml.Some? && !inputs.links.BadLinks?
    ensures findings == [] ==> FindingLines(inputs, findings) == LaterLines(inputs, 0)[..1]
  {
  }

  /** What the leak search of this run reads. */
  function SearchedFiles(inputs: Inputs): seq<LeakSearch.File>
    requires inputs.hwlocXml.Some? && !inputs.links.BadLinks?
  {
    Searched(StagedFiles(inputs), Written(SearchedLines(inputs)), inputs.unreadable)
  }

  // ----- what a run must end with

  /** The hashes of the files' bytes. */
  function Hashes(checks: Checks, files: seq<Staged>): map<string, string> {
    map n | n in AsMap(files) :: (checks.hash)(AsMap(files)[n])
  }

  /** The manifest with one more file and its hash. */
  function Listed(m: Manifest, checks: Checks, file: Staged): Manifest {
    m.(files := m.files[file.name := (checks.hash)(file.bytes)])
  }

  /** The data files in --out are exactly these, byte for byte. */
  ghost predicate Holds(out: Files, files: seq<Staged>) {
    forall n :: n in DATA_FILES ==> (n in out <==> n in AsMap(files)) && (n in out ==> out[n] == Text(AsMap(files)[n]))
  }

  function Names(written: seq<string>): set<string> { set n | n in written }

  ghost predicate NoData(out: Files) { forall n :: n in DATA_FILES ==> n !in out }

  /** The files passed validation, a leak search without findings, and replay; the manifest lists them so far. */
  ghost predicate PassedAll(inputs: Inputs, checks: Checks, m: Manifest) {
    && inputs.hwlocXml.Some? && !inputs.links.BadLinks?
    && var files := StagedFiles(inputs);
    && SchemasOk(checks, files, inputs.unreadable)
    && LeakSearch.AllClean(inputs.raw, SearchedFiles(inputs))
    && m.topologyId.Some? && (checks.replay)(AsMap(files)) == Id(m.topologyId.value)
    && m.files == Hashes(checks, files) && m.sanitized && m.leakCheck == Passed && m.errors == []
  }

  /** Some file of those staged broke its schema or holds an identifier. */
  ghost predicate SchemaOrLeak(inputs: Inputs, checks: Checks) {
    && inputs.hwlocXml.Some? && !inputs.links.BadLinks?
    && (!SchemasOk(checks, StagedFiles(inputs), inputs.unreadable)
        || Leaks(inputs.raw, SearchedFiles(inputs)))
  }

  /** The files pass their schemas and hold no identifier, nor do the lines noted so far. */
  ghost predicate Passes(inputs: Inputs, checks: Checks)
    requires inputs.hwlocXml.Some? && !inputs.links.BadLinks?
  {
    && SchemasOk(checks, StagedFiles(inputs), inputs.unreadable)
    && LeakSearch.AllClean(inputs.raw, SearchedFiles(inputs))
  }

  /** No identifier has the kind reserved for files that could not be opened. */
  ghost predicate RealKinds(raw: seq<RawEntry>) { forall e :: e in raw ==> e.kind != Unreadable }

  /** How the reading of the sources ends: by the first that fails. */
  function SourcesEnd(inputs: Inputs): Thrown {
    if inputs.hwlocXml.None? then Abort("xml_reimport")
    else if inputs.links.BadLinks? then Abort(inputs.links.code)
    else Quiet
  }

  /** The scratch directory can be made and nothing throws. */
  predicate Smooth(inputs: Inputs) { !inputs.noScratch && inputs.crash == NoCrash }

  /** The run comes to the end of the leak search: no step up to it fails, whatever fails later. */
  ghost predicate Judged(inputs: Inputs, fault: nat -> Fault, steps: nat) {
    && !inputs.noScratch && inputs.crash != Starting && inputs.crash != Checking && SourcesEnd(inputs) == Quiet
    && forall k: nat :: k < steps + |StagedFiles(inputs)| + 1 ==> fault(k).Fine?
  }

  /** How a run ends whose sources were read and that no step fails: by the replay of files that pass, if at all. */
  ghost function ReplayEnd(inputs: Inputs, checks: Checks): Thrown
    requires inputs.hwlocXml.Some? && !inputs.links.BadLinks?
  {
    if Passes(inputs, checks) && (checks.replay)(AsMap(StagedFiles(inputs))).Invalid? then Abort("replay") else Quiet
  }

  ghost function RunEnd(inputs: Inputs, checks: Checks): Thrown {
    if SourcesEnd(inputs) != Quiet then SourcesEnd(inputs) else ReplayEnd(inputs, checks)
  }

  /** The exit code of a capture that no step fails: 1 for a source that fails, 3 for a broken schema or an identifier,
      1 for a file that cannot be searched or a replay that is refused; else by what is missing. */
  ghost function ExitOf(inputs: Inputs, checks: Checks): nat {
    if SourcesEnd(inputs) != Quiet then 1
    else if SchemaOrLeak(inputs, checks) then 3
    else if !Passes(inputs, checks) || ReplayEnd(inputs, checks) != Quiet then 1
    else if inputs.nvml.Unavailable? then 2
    else 0
  }

  ghost predicate InScratch(files: seq<Staged>, scratch: map<string, string>) {
    forall f :: f in files ==> f.name in scratch && scratch[f.name] == f.bytes
  }

  ghost predicate Leaks(raw: seq<RawEntry>, files: seq<LeakSearch.File>) {
    exists i :: 0 <= i < |files| && files[i].content.Read? && !LeakSearch.CleanText(raw, files[i].content.text)
  }

  ghost predicate FailedForm(m: Manifest) {
    m.status == Failed && m.files == map[] && m.topologyId == None && m.errors != [] && KnownCodes(m)
  }

  ghost predicate KnownCodes(m: Manifest) { forall e :: e in m.errors ==> e in ERROR_CODES }

  function Missing(inputs: Inputs, partial: bool): seq<(string, string)> {
    if partial && inputs.nvml.Unavailable? then [("nvml.json", inputs.nvml.reason)] else []
  }

  datatype Outcome = Outcome(exitCode: nat, topologyId: Option<string>)

  /** Nothing of a capture is in --out yet. */
  ghost predicate Fresh(out: Files) { forall n :: n in DATA_FILES + RECORD_FILES ==> n !in out }

  ghost predicate Published(inputs: Inputs, checks: Checks, out: Files, outcome: Outcome) {
    "manifest.json" in out && out["manifest.json"].Json? &&
    var m := out["manifest.json"].manifest;
    && PassedAll(inputs, checks, m) && Holds(out, StagedFiles(inputs))
    && m.status == (if inputs.nvml.Unavailable? then Partial else Complete)
    && m.missing == Missing(inputs, true)
    && outcome == Outcome(if inputs.nvml.Unavailable? then 2 else 0, m.topologyId)
    && HasDiagnostics(out, SearchedLines(inputs) + LaterLines(inputs, outcome.exitCode))
  }

  ghost predicate Withdrawn(out: Files, outcome: Outcome) {
    && NoData(out) && outcome.topologyId == None && (outcome.exitCode == 1 || outcome.exitCode == 3)
    && ("manifest.json" in out ==> out["manifest.json"].Json? && FailedForm(out["manifest.json"].manifest))
  }

  /** A run ends with everything published or everything withdrawn, and touches no file that is not its own. */
  ghost predicate PublicationSafe(inputs: Inputs, checks: Checks, out0: Files, out: Files, outcome: Outcome) {
    && (Published(inputs, checks, out, outcome) || Withdrawn(out, outcome))
    && (outcome.exitCode == 3 ==> SchemaOrLeak(inputs, checks))
    && SameBut(out0, out, DATA_FILES + RECORD_FILES) && "manifest.json.tmp" !in out
    && ("manifest.json" in out ==> exists lines :: HasDiagnostics(out, lines + [ExitNote(outcome.exitCode)]))
  }

  ghost predicate HasDiagnostics(out: Files, lines: seq<string>) {
    "diagnostics.txt" in out && out["diagnostics.txt"] == Text(Written(lines))
  }

  // ----- the run

  class Run {
    const inputs: Inputs
    const checks: Checks
    const disk: Disk
    var diag: seq<string>
    var manifest: Manifest
    var written: seq<string>
    var leakOrSchema: bool
    var otherFailure: bool
    var partial: bool

    constructor (inputs: Inputs, checks: Checks, disk: Disk)
      ensures this.inputs == inputs && this.checks == checks && this.disk == disk
      ensures manifest == EMPTY_MANIFEST && written == [] && !leakOrSchema && !otherFailure && !partial
      ensures diag == inputs.notes.begun
    {
      this.inputs, this.checks, this.disk, diag := inputs, checks, disk, inputs.notes.begun;
      manifest, written, leakOrSchema, otherFailure, partial := EMPTY_MANIFEST, [], false, false, false;
    }

    predicate Failing()
      reads this`leakOrSchema, this`otherFailure
    {
      leakOrSchema || otherFailure
    }

    /** Before the record is written. */
    ghost predicate Valid(out0: Files)
      reads this`manifest, this`written, this`leakOrSchema, this`otherFailure, this`partial, disk`out
    {
      Core(out0) && SameBut(out0, disk.out, DATA_FILES)
    }

    /** Every data file in --out is one this run wrote; a manifest has errors exactly when the run is failing. */
    ghost predicate Core(out0: Files)
      reads this`manifest, this`written, this`leakOrSchema, this`otherFailure, this`partial, disk`out
    {
      && (forall n :: n in written ==> n in DATA_FILES)
      && (forall n :: n in DATA_FILES && n in disk.out ==> n in written)
      && SameBut(out0, disk.out, DATA_FILES + RECORD_FILES)
      && (manifest.errors != [] <==> Failing()) && KnownCodes(manifest)
      && (leakOrSchema ==> SchemaOrLeak(inputs, checks))
      && (partial ==> inputs.nvml.Unavailable?) && manifest.missing == Missing(inputs, partial)
    }

    method Fail(code: string, isLeakOrSchema: bool, ghost out0: Files)
      requires Valid(out0) && code in ERROR_CODES && (isLeakOrSchema ==> SchemaOrLeak(inputs, checks))
      modifies this`manifest, this`leakOrSchema, this`otherFailure
      ensures Valid(out0) && Failing() && manifest == old(manifest).(errors := old(manifest).errors + [code])
      ensures leakOrSchema == (old(leakOrSchema) || isLeakOrSchema)
      ensures otherFailure == (old(otherFailure) || !isLeakOrSchema)
    {
      if isLeakOrSchema {
        leakOrSchema := true;
      } else {
        otherFailure := true;
      }
      manifest := manifest.(errors := manifest.errors + [code]);
    }

    /** A line of the diagnostics. */
    method Note(line: string)
      modifies this`diag
      ensures diag == old(diag) + [line]
    {
      diag := diag + [line];
    }

    /** Reads the sources and builds the files; a source that fails ends the run with its code. */
    method Collect(ghost out0: Files) returns (thrown: Thrown, files: seq<Staged>)
      requires Valid(out0) && !Failing() && manifest == EMPTY_MANIFEST && diag == inputs.notes.begun
      modifies this`manifest, this`partial, this`diag
      ensures Valid(out0) && !Failing() && manifest == EMPTY_MANIFEST.(missing := manifest.missing)
      ensures thrown == SourcesEnd(inputs)
      ensures thrown == Quiet ==> files == StagedFiles(inputs) && diag == CollectedLines(inputs)
      ensures thrown == Quiet ==> partial == inputs.nvml.Unavailable?
    {
      diag := diag + inputs.notes.read;
      NoteMissing(out0);
      thrown, files := BuildFiles();
    }

    /** Emits hwloc.xml and the documents beside it. */
    method BuildFiles() returns (thrown: Thrown, files: seq<Staged>)
      modifies this`diag
      ensures thrown == SourcesEnd(inputs)
      ensures thrown == Quiet ==> files == StagedFiles(inputs)
      ensures thrown == Quiet ==> diag == old(diag) + ["emit: hwloc.xml in " + inputs.notes.emitTime]
    {
      files := [];
      if inputs.hwlocXml.None? {
        Note("emit: hwloc.xml does not re-import with the replay flags");
        return Abort("xml_reimport"), files;
      }
      Note("emit: hwloc.xml in " + inputs.notes.emitTime);
      files := [Staged("hwloc.xml", inputs.hwlocXml.value)];
      if inputs.nvml.Facts? {
        files := files + [Staged("nvml.json", inputs.nvml.bytes)];
      }
      files := files + [Staged("nics.json", inputs.nics)];
      match inputs.links {
        case NoLinks =>
        case BadLinks(code) =>
          diag := diag + inputs.notes.links;
          return Abort(code), files;
        case LinksDoc(bytes) => files := files + [Staged("links.json", bytes)];
      }
      files := files + [Staged("meta.json", inputs.metaDoc)];
      thrown := Quiet;
    }

    /** A machine whose NVML cannot be asked is captured without it. */
    method NoteMissing(ghost out0: Files)
      requires Valid(out0) && !Failing() && manifest == EMPTY_MANIFEST
      modifies this`manifest, this`partial
      ensures Valid(out0) && !Failing() && manifest == EMPTY_MANIFEST.(missing := manifest.missing)
      ensures partial == inputs.nvml.Unavailable?
    {
      partial := inputs.nvml.Unavailable?;
      if inputs.nvml.Unavailable? {
        manifest := manifest.(missing := manifest.missing + [("nvml.json", inputs.nvml.reason)]);
      }
    }

    /** Writes the files into the scratch directory. */
    method Stage(files: seq<Staged>) returns (thrown: Thrown)
      requires UniqueNames(files)
      modifies disk`steps, disk`scratch
      ensures thrown == Quiet || thrown == SystemError
      ensures thrown == Quiet ==> InScratch(files, disk.scratch) && disk.steps == old(disk.steps) + |files|
      ensures disk.FineTo(old(disk.steps) + |files|) ==> thrown == Quiet
    {
      for i := 0 to |files|
        invariant disk.steps == old(disk.steps) + i
        invariant forall j :: 0 <= j < i ==>
                    files[j].name in disk.scratch && disk.scratch[files[j].name] == files[j].bytes
      {
        var ok := disk.WriteScratch(files[i].name, files[i].bytes);
        if !ok {
          return SystemError;
        }
      }
      thrown := Quiet;
    }

    /** What the scratch directory holds under the names staged. */
    method ReadBack(files: seq<Staged>) returns (r: seq<Staged>)
      requires InScratch(files, disk.scratch)
      ensures r == files
    {
      r := [];
      for i := 0 to |files|
        invariant r == files[..i]
      {
        assert files[i] in files;
        r := r + [Staged(files[i].name, disk.scratch[files[i].name])];
      }
    }

    method PassSchemas(files: seq<Staged>) returns (ok: bool)
      requires forall f :: f in files ==> f.name in DATA_FILES
      ensures ok <==> SchemasOk(checks, files, inputs.unreadable)
    {
      ok := true;
      for i := 0 to |files|
        invariant ok <==> SchemasOk(checks, files[..i], inputs.unreadable)
      {
        assert files[..i + 1] == files[..i] + [files[i]] && files[i] in files;
        if HasSchema(files[i].name) {
          if files[i].name in inputs.unreadable || !checks.schemaOk(files[i].name, files[i].bytes) {
            ok := false;
          }
        }
      }
      assert files[..|files|] == files;
    }

    /** The files as they are in the scratch directory pass their schemas. */
    method Validate(files: seq<Staged>, ghost out0: Files) returns (ok: bool)
      requires Valid(out0) && !Failing() && diag == CollectedLines(inputs)
      requires inputs.hwlocXml.Some? && !inputs.links.BadLinks? && files == StagedFiles(inputs)
      requires InScratch(files, disk.scratch)
      modifies this`manifest, this`leakOrSchema, this`otherFailure, this`diag
      ensures Valid(out0) && (ok <==> SchemasOk(checks, files, inputs.unreadable))
      ensures leakOrSchema == !ok && !otherFailure && diag == SearchedLines(inputs)
      ensures manifest == if ok then old(manifest).(sanitized := true)
                          else old(manifest).(errors := old(manifest).errors + ["schema"])
    {
      var staged := ReadBack(files);
      StagedUnique(inputs);
      diag := diag + inputs.notes.schemas;
      ok := PassSchemas(staged);
      if ok {
        manifest := manifest.(sanitized := true);
      } else {
        Fail("schema", true, out0);
      }
    }

    /** Writes the diagnostics so far beside the files and searches them all. */
    method SearchStaged(files: seq<Staged>) returns (thrown: Thrown, findings: seq<LeakSearch.Finding>)
      requires ValidInputs(inputs) && diag == SearchedLines(inputs)
      requires inputs.hwlocXml.Some? && !inputs.links.BadLinks? && files == StagedFiles(inputs)
      requires InScratch(files, disk.scratch)
      modifies disk`steps, disk`scratch
      ensures thrown == Quiet || thrown == SystemError || thrown == OtherError
      ensures disk.FineTo(old(disk.steps) + 1) && inputs.crash != Checking ==> thrown == Quiet
      ensures thrown == Quiet ==> InScratch(files, disk.scratch)
      ensures thrown == Quiet ==> FindingsAre(findings, inputs.raw, SearchedFiles(inputs))
    {
      findings := [];
      var staged := ReadBack(files);
      StagedUnique(inputs);
      var text := Render(diag);
      var ok := disk.WriteScratch("diagnostics.txt", text + "\n");
      if !ok {
        return SystemError, findings;
      }
      if inputs.crash == Checking {
        return OtherError, findings;
      }
      findings := LeakSearch.Search(inputs.raw, Searched(staged, text + "\n", inputs.unreadable));
      thrown := Quiet;
    }

    /** The leak search over the files and the diagnostics written so far. */
    method SearchLeaks(files: seq<Staged>, ghost out0: Files) returns (thrown: Thrown)
      requires Valid(out0) && !Failing() && ValidInputs(inputs) && diag == SearchedLines(inputs)
      requires inputs.hwlocXml.Some? && !inputs.links.BadLinks? && files == StagedFiles(inputs)
      requires InScratch(files, disk.scratch)
      modifies this`manifest, this`leakOrSchema, this`otherFailure, this`diag, disk`steps, disk`scratch
      ensures Valid(out0) && (thrown == Quiet || thrown == SystemError || thrown == OtherError)
      ensures thrown != Quiet ==> !Failing()
      ensures disk.FineTo(old(disk.steps) + 1) && inputs.crash != Checking ==> thrown == Quiet
      ensures thrown == Quiet ==> (Failing() <==> !LeakSearch.AllClean(inputs.raw, SearchedFiles(inputs)))
      ensures thrown == Quiet && RealKinds(inputs.raw) ==> (leakOrSchema <==> Leaks(inputs.raw, SearchedFiles(inputs)))
      ensures manifest == old(manifest).(leakCheck := manifest.leakCheck, errors := manifest.errors)
      ensures thrown == Quiet && !Failing() ==>
                && manifest.leakCheck == Passed && InScratch(files, disk.scratch)
                && diag == SearchedLines(inputs) + LaterLines(inputs, 0)[..1]
    {
      var findings;
      thrown, findings := SearchStaged(files);
      if thrown == Quiet {
        NoteFindings(findings);
        NoFindingLines(inputs, findings);
        Judge(findings, out0);
      }
    }

    /** Schemas, then the leak search. */
    method Check(files: seq<Staged>, ghost out0: Files) returns (thrown: Thrown)
      requires Valid(out0) && !Failing() && ValidInputs(inputs) && diag == CollectedLines(inputs)
      requires inputs.hwlocXml.Some? && !inputs.links.BadLinks? && files == StagedFiles(inputs)
      requires InScratch(files, disk.scratch)
      modifies this`manifest, this`leakOrSchema, this`otherFailure, this`diag, disk`steps, disk`scratch
      ensures Valid(out0) && (thrown == Quiet || thrown == SystemError || thrown == OtherError)
      ensures thrown != Quiet ==> !Failing() && SchemasOk(checks, files, inputs.unreadable)
      ensures disk.FineTo(old(disk.steps) + 1) && inputs.crash != Checking ==> thrown == Quiet
      ensures thrown == Quiet ==> (Failing() <==> !Passes(inputs, checks))
      ensures thrown == Quiet && RealKinds(inputs.raw) ==> (leakOrSchema <==> SchemaOrLeak(inputs, checks))
      ensures manifest.files == old(manifest.files) && manifest.topologyId == old(manifest.topologyId)
      ensures thrown == Quiet && !Failing() ==>
                && manifest.sanitized && manifest.leakCheck == Passed && InScratch(files, disk.scratch)
                && diag == SearchedLines(inputs) + LaterLines(inputs, 0)[..1]
    {
      var ok := Validate(files, out0);
      if !ok {
        return Quiet;
      }
      thrown := SearchLeaks(files, out0);
    }

    method NoteFindings(findings: seq<LeakSearch.Finding>)
      requires inputs.hwlocXml.Some? && !inputs.links.BadLinks?
      modifies this`diag
      ensures diag == old(diag) + FindingLines(inputs, findings)
    {
      var lines := FindingLines(inputs, findings);
      for i := 0 to |lines|
        invariant diag == old(diag) + lines[..i]
      {
        NextLine(old(diag), lines, i);
        Note(lines[i]);
      }
      assert lines[..|lines|] == lines;
    }

    /** Findings in a file that was read are a leak; a file that could not be read cannot be shown clean. */
    method Judge(findings: seq<LeakSearch.Finding>, ghost out0: Files)
      requires Valid(out0) && !Failing() && ValidInputs(inputs)
      requires inputs.hwlocXml.Some? && !inputs.links.BadLinks?
      requires FindingsAre(findings, inputs.raw, SearchedFiles(inputs))
      modifies this`manifest, this`leakOrSchema, this`otherFailure
      ensures Valid(out0) && (Failing() <==> findings != [])
      ensures Failing() <==> !LeakSearch.AllClean(inputs.raw, SearchedFiles(inputs))
      ensures RealKinds(inputs.raw) ==> (leakOrSchema <==> Leaks(inputs.raw, SearchedFiles(inputs)))
      ensures manifest == old(manifest).(leakCheck := if Failing() then Found else Passed, errors := manifest.errors)
      ensures ErrorsAre(manifest.errors, findings)
    {
      var leak, unread := Kinds(findings);
      manifest := manifest.(leakCheck := if findings == [] then Passed else Found);
      NothingFound(findings, inputs.raw, SearchedFiles(inputs));
      LeaksFound(findings, inputs.raw, SearchedFiles(inputs));
      FailFor(leak, unread, out0);
    }

    method FailFor(leak: bool, unread: bool, ghost out0: Files)
      requires Valid(out0) && !Failing() && (leak ==> SchemaOrLeak(inputs, checks))
      modifies this`manifest, this`leakOrSchema, this`otherFailure
      ensures Valid(out0) && leakOrSchema == leak && otherFailure == unread
      ensures manifest == old(manifest).(errors := (if leak then ["leak"] else [])
                                                   + if unread then ["output_unreadable"] else [])
    {
      if leak {
        Fail("leak", true, out0);
      }
      if unread {
        Fail("output_unreadable", false, out0);
      }
    }

    /** The file is on the list of those to remove before its first byte is written. */
    method PublishOne(file: Staged, ghost out0: Files) returns (ok: bool)
      requires Valid(out0) && file.name in DATA_FILES
      modifies this`manifest, this`written, disk`steps, disk`out
      ensures Valid(out0) && (disk.NeverFails() ==> ok)
      ensures manifest == if ok then Listed(old(manifest), checks, file) else old(manifest)
      ensures ok ==> disk.out == old(disk.out)[file.name := Text(file.bytes)]
    {
      written := written + [file.name];
      ok := disk.Write(file.name, Text(file.bytes));
      if ok {
        manifest := Listed(manifest, checks, file);
      }
    }

    /** Copies the files into --out and lists each once it is written. */
    method Publish(files: seq<Staged>, ghost out0: Files) returns (thrown: Thrown)
      requires Valid(out0) && !Failing() && written == [] && manifest.files == map[]
      requires UniqueNames(files) && forall f :: f in files ==> f.name in DATA_FILES
      modifies this`manifest, this`written, disk`steps, disk`out
      ensures Valid(out0) && !Failing() && (thrown == Quiet || thrown == SystemError || thrown == OtherError)
      ensures manifest == old(manifest).(files := manifest.files)
      ensures disk.NeverFails() && !inputs.crash.Publishing? ==> thrown == Quiet
      ensures thrown == Quiet ==> Holds(disk.out, files) && manifest.files == Hashes(checks, files)
    {
      for i := 0 to |files|
        invariant Valid(out0) && !Failing() && manifest == old(manifest).(files := manifest.files)
        invariant Holds(disk.out, files[..i]) && manifest.files == Hashes(checks, files[..i])
      {
        if inputs.crash == Publishing(i) {
          return OtherError;
        }
        assert files[i] in files;
        ghost var before := disk.out;
        var ok := PublishOne(files[i], out0);
        if !ok {
          return SystemError;
        }
        PublishedNext(before, disk.out, files, i);
        HashesNext(checks, files, i);
      }
      assert files[..|files|] == files;
      thrown := Quiet;
    }

    /** The scratch directory, then everything that may throw. */
    method Attempt(ghost out0: Files) returns (thrown: Thrown)
      requires Valid(out0) && !Failing() && manifest == EMPTY_MANIFEST && written == [] && !partial
               && ValidInputs(inputs)
      requires diag == inputs.notes.begun
      modifies this, disk`steps, disk`scratch, disk`out
      ensures Valid(out0) && (thrown.Abort? ==> thrown.code in ERROR_CODES) && (thrown != Quiet ==> !Failing())
      ensures thrown == Quiet && !Failing() ==> Ready(disk.out)
      ensures Judged(inputs, disk.fault, old(disk.steps)) && RealKinds(inputs.raw) ==>
                (leakOrSchema <==> SchemaOrLeak(inputs, checks))
      ensures Smooth(inputs) && disk.NeverFails() ==> EndsAsExpected(thrown)
    {
      if inputs.noScratch {
        return NoScratch;
      }
      if inputs.crash == Starting {
        return OtherError;
      }
      thrown := StageAndCheck(out0);
    }

    /** How a run ends that no step fails. */
    ghost predicate EndsAsExpected(thrown: Thrown)
      reads this`leakOrSchema, this`otherFailure
    {
      && thrown == RunEnd(inputs, checks)
      && (SourcesEnd(inputs) == Quiet ==> (Failing() <==> !Passes(inputs, checks)))
    }

    method StageAndCheck(ghost out0: Files) returns (thrown: Thrown)
      requires Valid(out0) && !Failing() && manifest == EMPTY_MANIFEST && written == [] && ValidInputs(inputs)
      requires diag == inputs.notes.begun
      modifies this, disk`steps, disk`scratch, disk`out
      ensures Valid(out0) && (thrown.Abort? ==> thrown.code in ERROR_CODES) && (thrown != Quiet ==> !Failing())
      ensures thrown == Quiet && !Failing() ==> Ready(disk.out)
      ensures Judged(inputs, disk.fault, old(disk.steps)) && RealKinds(inputs.raw) ==>
                (leakOrSchema <==> SchemaOrLeak(inputs, checks))
      ensures disk.NeverFails() && inputs.crash == NoCrash ==> EndsAsExpected(thrown)
    {
      var files;
      thrown, files := Collect(out0);
      if thrown != Quiet {
        return;
      }
      StagedUnique(inputs);
      thrown := Stage(files);
      if thrown != Quiet {
        return;
      }
      thrown := CheckAndPublish(files, out0);
    }

    method CheckAndPublish(files: seq<Staged>, ghost out0: Files) returns (thrown: Thrown)
      requires Valid(out0) && !Failing() && manifest.files == map[] && written == [] && ValidInputs(inputs)
      requires inputs.hwlocXml.Some? && !inputs.links.BadLinks? && files == StagedFiles(inputs)
      requires diag == CollectedLines(inputs)
      requires UniqueNames(files) && forall f :: f in files ==> f.name in DATA_FILES
      requires InScratch(files, disk.scratch)
      modifies this`manifest, this`leakOrSchema, this`otherFailure, this`written, this`diag
      modifies disk`steps, disk`scratch, disk`out
      ensures Valid(out0) && (thrown.Abort? ==> thrown.code in ERROR_CODES) && (thrown != Quiet ==> !Failing())
      ensures thrown == Quiet && !Failing() ==>
                && PassedAll(inputs, checks, manifest) && Holds(disk.out, files)
                && diag == SearchedLines(inputs) + LaterLines(inputs, 0)[..2]
      ensures disk.FineTo(old(disk.steps) + 1) && inputs.crash != Checking && RealKinds(inputs.raw) ==>
                (leakOrSchema <==> SchemaOrLeak(inputs, checks))
      ensures disk.NeverFails() && inputs.crash == NoCrash ==>
                (Failing() <==> !Passes(inputs, checks)) && thrown == ReplayEnd(inputs, checks)
    {
      thrown := Check(files, out0);
      if thrown == Quiet && !Failing() {
        thrown := ReplayAndPublish(files, out0);
        TwoLaterLines(inputs);
      }
    }

    /** The files replay into a topology id; then they are published. */
    method ReplayAndPublish(files: seq<Staged>, ghost out0: Files) returns (thrown: Thrown)
      requires Valid(out0) && !Failing() && manifest.files == map[] && written == []
      requires UniqueNames(files) && forall f :: f in files ==> f.name in DATA_FILES
      requires InScratch(files, disk.scratch)
      modifies this`manifest, this`written, this`diag, disk`steps, disk`out
      ensures Valid(out0) && !Failing() && (thrown.Abort? ==> thrown.code == "replay")
      ensures thrown.Abort? <==> (checks.replay)(AsMap(files)).Invalid?
      ensures disk.NeverFails() && !inputs.crash.Publishing? ==> thrown == Quiet || thrown.Abort?
      ensures thrown == Quiet ==> Holds(disk.out, files) && manifest.topologyId.Some?
                                  && (checks.replay)(AsMap(files)) == Id(manifest.topologyId.value)
                                  && manifest.files == Hashes(checks, files)
      ensures thrown == Quiet ==> diag == old(diag) + [ReplayNote(inputs.notes.replayTime)]
      ensures manifest == old(manifest).(files := manifest.files, topologyId := manifest.topologyId)
    {
      var staged := ReadBack(files);
      var replayed := (checks.replay)(AsMap(staged));
      if replayed.Invalid? {
        Note(ReplayErrorNote(replayed.code, replayed.file));
        return Abort("replay");
      }
      Note(ReplayNote(inputs.notes.replayTime));
      thrown := Publish(files, out0);
      if thrown == Quiet {
        manifest := manifest.(topologyId := Some(replayed.id));
      }
    }

    /** Everything passed and is in --out; only the record is still to be written. */
    ghost predicate Ready(out: Files)
      reads this`manifest, this`partial, this`diag
    {
      && PassedAll(inputs, checks, manifest) && Holds(out, StagedFiles(inputs))
      && partial == inputs.nvml.Unavailable?
      && diag == SearchedLines(inputs) + LaterLines(inputs, 0)[..2]
    }

    /** An exception is noted and makes the run a failing one. */
    method Handle(thrown: Thrown, ghost out0: Files) returns (lines: seq<string>, code: string)
      requires Valid(out0) && thrown != Quiet && (thrown.Abort? ==> thrown.code in ERROR_CODES)
      modifies this`manifest, this`leakOrSchema, this`otherFailure, this`diag
      ensures Valid(out0) && otherFailure && leakOrSchema == old(leakOrSchema)
      ensures HandledBy(thrown, lines, code)
      ensures diag == old(diag) + lines && manifest.errors == old(manifest.errors) + [code]
    {
      code, lines := "internal", [];
      match thrown {
        case Abort(c) => code := c;
        case NoScratch => lines := ["capture: no scratch directory could be created under TMPDIR"];
        case SystemError => lines, code := ["capture: an output file could not be written"], "write_failed";
        case OtherError => lines := ["capture: unexpected exception"];
      }
      diag := diag + lines;
      Fail(code, false, out0);
    }

    method Go(ghost out0: Files) returns (outcome: Outcome)
      requires Valid(out0) && !Failing() && manifest == EMPTY_MANIFEST && written == [] && !partial
               && ValidInputs(inputs)
      requires Fresh(out0) && diag == inputs.notes.begun
      modifies this, disk`steps, disk`scratch, disk`out
      ensures PublicationSafe(inputs, checks, out0, disk.out, outcome)
      ensures Judged(inputs, disk.fault, old(disk.steps)) && RealKinds(inputs.raw) ==>
                (outcome.exitCode == 3 <==> SchemaOrLeak(inputs, checks))
      ensures Smooth(inputs) && disk.NeverFails() && RealKinds(inputs.raw) ==>
                outcome.exitCode == ExitOf(inputs, checks) && "manifest.json" in disk.out
    {
      var thrown := Attempt(out0);
      if thrown != Quiet {
        var _, _ := Handle(thrown, out0);
      }
      outcome := Finish(out0);
    }

    /** Takes back what was published: no file of this run stays, and the manifest says so. */
    method ToFailedForm(ghost out0: Files)
      requires Core(out0)
      modifies this`manifest, disk`out
      ensures Core(out0) && NoData(disk.out) && SameBut(old(disk.out), disk.out, DATA_FILES)
      ensures manifest == old(manifest).(status := Failed, files := map[], topologyId := None)
    {
      for i := 0 to |written|
        invariant manifest == old(manifest) && disk.out == old(disk.out) - Names(written[..i])
      {
        disk.Remove(written[i]);
        assert written[..i + 1] == written[..i] + [written[i]];
      }
      assert written[..|written|] == written;
      manifest := manifest.(status := Failed, files := map[], topologyId := None);
    }

    method RemoveRecord()
      modifies disk`out
      ensures disk.out == old(disk.out) - RECORD_FILES
    {
      disk.Remove("diagnostics.txt");
      disk.Remove("manifest.json");
      disk.Remove("manifest.json.tmp");
    }

    /** Takes the data files and the record back; the failure to write the record is one of the errors. */
    method TakeBack(ghost out0: Files)
      requires Core(out0)
      modifies this`manifest, this`otherFailure, this`diag, disk`out
      ensures Core(out0) && NoData(disk.out) && otherFailure && FailedForm(manifest)
      ensures SameBut(old(disk.out), disk.out, DATA_FILES + RECORD_FILES)
      ensures forall n :: n in RECORD_FILES ==> n !in disk.out
    {
      Note("capture: diagnostics.txt or the manifest could not be written");
      FailRecord(out0);
      ToFailedForm(out0);
      ghost var before := disk.out;
      RemoveRecord();
      RecordKept(out0, before, disk.out);
    }

    method FailRecord(ghost out0: Files)
      requires Core(out0)
      modifies this`manifest, this`otherFailure
      ensures Core(out0) && otherFailure && "write_failed" in manifest.errors
    {
      if "write_failed" !in manifest.errors {
        manifest := manifest.(errors := manifest.errors + ["write_failed"]);
      }
      otherFailure := true;
    }

    /** Notes the exit code and writes the diagnostics, then the manifest. */
    method WriteRecord(code: nat, ghost out0: Files) returns (ok: bool)
      requires Core(out0)
      modifies this`diag, disk`steps, disk`out
      ensures Core(out0)
      ensures SameBut(old(disk.out), disk.out, RECORD_FILES) && diag == old(diag) + [ExitNote(code)]
      ensures ok ==> "manifest.json" in disk.out && disk.out["manifest.json"] == Json(manifest)
      ensures ok ==> "manifest.json.tmp" !in disk.out
      ensures (ok ==> HasDiagnostics(disk.out, diag)) && (disk.NeverFails() ==> ok)
    {
      Note(ExitNote(code));
      ok := WriteFiles();
      RecordKept(out0, old(disk.out), disk.out);
    }

    method WriteFiles() returns (ok: bool)
      modifies disk`steps, disk`out
      ensures SameBut(old(disk.out), disk.out, RECORD_FILES)
      ensures ok ==> "manifest.json" in disk.out && disk.out["manifest.json"] == Json(manifest)
      ensures ok ==> "manifest.json.tmp" !in disk.out
      ensures (ok ==> HasDiagnostics(disk.out, diag)) && (disk.NeverFails() ==> ok)
    {
      var text := Render(diag);
      ok := disk.Write("diagnostics.txt", Text(text + "\n"));
      if ok {
        ok := disk.WriteManifest(manifest);
      }
    }

    /** Writes the record last; if that fails, takes the data files back and records the failure. */
    method Finish(ghost out0: Files) returns (outcome: Outcome)
      requires Valid(out0) && Fresh(out0) && (!Failing() ==> Ready(disk.out))
      modifies this`manifest, this`otherFailure, this`diag, disk`steps, disk`out
      ensures PublicationSafe(inputs, checks, out0, disk.out, outcome)
      ensures outcome.exitCode == 3 <==> leakOrSchema
      ensures disk.NeverFails() ==>
                outcome.exitCode == ExitFor(leakOrSchema, old(otherFailure), partial) && "manifest.json" in disk.out
    {
      var code := Settle(out0);
      ghost var before, lines := disk.out, diag;
      var ok := WriteRecord(code, out0);
      if ok {
        outcome := Outcome(code, manifest.topologyId);
        RunRecorded(inputs, checks, out0, before, disk.out, manifest, lines, outcome, Failing());
      } else {
        outcome := Withdraw(out0);
      }
    }

    /** The exit code, and the manifest in the form that goes with it. */
    method Settle(ghost out0: Files) returns (code: nat)
      requires Valid(out0) && (!Failing() ==> Ready(disk.out))
      modifies this`manifest, disk`out
      ensures Core(out0) && SameBut(old(disk.out), disk.out, DATA_FILES)
      ensures code == ExitFor(leakOrSchema, otherFailure, partial)
      ensures Failing() ==> NoData(disk.out) && FailedForm(manifest)
      ensures !Failing() ==> Ready(disk.out) && manifest.status == if partial then Partial else Complete
    {
      code := ExitFor(leakOrSchema, otherFailure, partial);
      if code == 1 || code == 3 {
        ToFailedForm(out0);
      } else {
        manifest := manifest.(status := if partial then Partial else Complete);
      }
    }

    /** After a record that could not be written: the data files go, then a failed record is tried. */
    method Withdraw(ghost out0: Files) returns (outcome: Outcome)
      requires Core(out0)
      modifies this`manifest, this`otherFailure, this`diag, disk`steps, disk`out
      ensures PublicationSafe(inputs, checks, out0, disk.out, outcome) && (outcome.exitCode == 3 <==> leakOrSchema)
    {
      TakeBack(out0);
      var code := ExitFor(leakOrSchema, otherFailure, partial);
      ghost var before, lines := disk.out, diag;
      var ok := WriteRecord(code, out0);
      outcome := Outcome(code, manifest.topologyId);
      if ok {
        FailureRecorded(inputs, checks, out0, before, disk.out, manifest, lines, outcome);
      } else {
        RemoveRecord();
      }
    }
  }

  /** What writing or removing the record leaves of the data files. */
  lemma RecordKept(out0: Files, before: Files, out: Files)
    requires SameBut(before, out, RECORD_FILES)
    ensures forall n :: n in DATA_FILES ==> (n in out <==> n in before) && (n in out ==> out[n] == before[n])
    ensures SameBut(out0, before, DATA_FILES + RECORD_FILES) ==> SameBut(out0, out, DATA_FILES + RECORD_FILES)
    ensures NoData(before) ==> NoData(out)
  {
    assert forall n :: n in DATA_FILES ==> n !in RECORD_FILES;
  }

  /** A failed run whose record is written is withdrawn. */
  lemma FailureRecorded(inputs: Inputs, checks: Checks, out0: Files, before: Files, out: Files, m: Manifest,
                        lines: seq<string>, outcome: Outcome)
    requires SameBut(out0, before, DATA_FILES + RECORD_FILES) && SameBut(before, out, RECORD_FILES)
    requires "manifest.json" in out && out["manifest.json"] == Json(m) && "manifest.json.tmp" !in out
    requires HasDiagnostics(out, lines + [ExitNote(outcome.exitCode)])
    requires NoData(before) && FailedForm(m) && outcome.topologyId == None
    requires outcome.exitCode == 1 || (outcome.exitCode == 3 && SchemaOrLeak(inputs, checks))
    ensures PublicationSafe(inputs, checks, out0, out, outcome)
  {
    assert forall n :: n in DATA_FILES ==> n !in RECORD_FILES;
    assert Withdrawn(out, outcome);
  }

  /** Once the record of a run that passed is written, what it says is what is there. */
  lemma SuccessRecorded(inputs: Inputs, checks: Checks, out0: Files, before: Files, out: Files, m: Manifest,
                        lines: seq<string>, outcome: Outcome)
    requires SameBut(out0, before, DATA_FILES + RECORD_FILES) && SameBut(before, out, RECORD_FILES)
    requires "manifest.json" in out && out["manifest.json"] == Json(m) && "manifest.json.tmp" !in out
    requires HasDiagnostics(out, lines + [ExitNote(outcome.exitCode)])
    requires PassedAll(inputs, checks, m) && Holds(before, StagedFiles(inputs))
    requires lines == SearchedLines(inputs) + LaterLines(inputs, 0)[..2]
    requires m.status == (if inputs.nvml.Unavailable? then Partial else Complete) && m.missing == Missing(inputs, true)
    requires outcome == Outcome(if inputs.nvml.Unavailable? then 2 else 0, m.topologyId)
    ensures Published(inputs, checks, out, outcome) && PublicationSafe(inputs, checks, out0, out, outcome)
  {
    RecordKept(out0, before, out);
    assert lines + [ExitNote(outcome.exitCode)] == SearchedLines(inputs) + LaterLines(inputs, outcome.exitCode);
    PublishedSafe(inputs, checks, out0, out, lines, outcome);
  }

  lemma RunRecorded(inputs: Inputs, checks: Checks, out0: Files, before: Files, out: Files, m: Manifest,
                    lines: seq<string>, outcome: Outcome, failing: bool)
    requires SameBut(out0, before, DATA_FILES + RECORD_FILES) && SameBut(before, out, RECORD_FILES)
    requires "manifest.json" in out && out["manifest.json"] == Json(m) && "manifest.json.tmp" !in out
    requires HasDiagnostics(out, lines + [ExitNote(outcome.exitCode)])
    requires outcome.topologyId == m.topologyId
    requires failing ==> NoData(before) && FailedForm(m)
    requires failing ==> outcome.exitCode == 1 || (outcome.exitCode == 3 && SchemaOrLeak(inputs, checks))
    requires !failing ==> PassedAll(inputs, checks, m) && Holds(before, StagedFiles(inputs))
    requires !failing ==> lines == SearchedLines(inputs) + LaterLines(inputs, 0)[..2]
    requires !failing ==> m.status == (if inputs.nvml.Unavailable? then Partial else Complete)
    requires !failing ==> m.missing == Missing(inputs, true)
    requires !failing ==> outcome.exitCode == if inputs.nvml.Unavailable? then 2 else 0
    ensures PublicationSafe(inputs, checks, out0, out, outcome)
  {
    if failing {
      FailureRecorded(inputs, checks, out0, before, out, m, lines, outcome);
    } else {
      SuccessRecorded(inputs, checks, out0, before, out, m, lines, outcome);
    }
  }

  lemma PublishedSafe(inputs: Inputs, checks: Checks, out0: Files, out: Files, lines: seq<string>, outcome: Outcome)
    requires Published(inputs, checks, out, outcome) && HasDiagnostics(out, lines + [ExitNote(outcome.exitCode)])
    requires SameBut(out0, out, DATA_FILES + RECORD_FILES) && "manifest.json.tmp" !in out
    ensures PublicationSafe(inputs, checks, out0, out, outcome)
  {
  }

  /** The findings are those of the search of the files. */
  ghost predicate FindingsAre(findings: seq<LeakSearch.Finding>, raw: seq<RawEntry>, files: seq<LeakSearch.File>) {
    forall f :: f in findings <==> LeakSearch.ExpectedIn(raw, files, |files|, f)
  }

  method Kinds(findings: seq<LeakSearch.Finding>) returns (leak: bool, unread: bool)
    ensures (leak <==> SomeLeak(findings)) && (unread <==> SomeUnread(findings)) && (leak || unread <==> findings != [])
  {
    leak, unread := false, false;
    for i := 0 to |findings|
      invariant (leak <==> SomeLeak(findings[..i])) && (unread <==> SomeUnread(findings[..i]))
      invariant leak || unread <==> i > 0
    {
      assert findings[..i + 1] == findings[..i] + [findings[i]];
      if findings[i].kind == Unreadable {
        unread := true;
      } else {
        leak := true;
      }
    }
    assert findings[..|findings|] == findings;
  }

  ghost predicate SomeLeak(findings: seq<LeakSearch.Finding>) { exists f :: f in findings && f.kind != Unreadable }

  /** A leak is one error, and being unable to read a file is another. */
  ghost predicate ErrorsAre(errors: seq<string>, findings: seq<LeakSearch.Finding>) {
    errors == (if SomeLeak(findings) then ["leak"] else []) + if SomeUnread(findings) then ["output_unreadable"] else []
  }

  ghost predicate SomeUnread(findings: seq<LeakSearch.Finding>) { exists f :: f in findings && f.kind == Unreadable }

  lemma NothingFound(findings: seq<LeakSearch.Finding>, raw: seq<RawEntry>, files: seq<LeakSearch.File>)
    requires FindingsAre(findings, raw, files)
    ensures findings == [] <==> LeakSearch.AllClean(raw, files)
  {
    LeakSearch.NoFindingsIff(raw, files);
    if findings != [] {
      assert findings[0] in findings;
    }
  }

  /** A file with an identifier is what gives a finding of a kind of identifier. */
  lemma LeaksFound(findings: seq<LeakSearch.Finding>, raw: seq<RawEntry>, files: seq<LeakSearch.File>)
    requires FindingsAre(findings, raw, files)
    ensures SomeLeak(findings) ==> Leaks(raw, files)
    ensures RealKinds(raw) && Leaks(raw, files) ==> SomeLeak(findings)
  {
    if f :| f in findings && f.kind != Unreadable {
      var i: nat :| i < |files| && LeakSearch.Expected(raw, files[i], f);
      LeakSearch.FileFound(raw, files[i]);
    }
    if RealKinds(raw) && Leaks(raw, files) {
      var i :| 0 <= i < |files| && files[i].content.Read? && !LeakSearch.CleanText(raw, files[i].content.text);
      LeakSearch.FileFound(raw, files[i]);
      var f :| LeakSearch.Expected(raw, files[i], f);
      FindingReal(raw, files[i], f);
      assert LeakSearch.ExpectedIn(raw, files, |files|, f);
    }
  }

  lemma FindingReal(raw: seq<RawEntry>, file: LeakSearch.File, f: LeakSearch.Finding)
    requires RealKinds(raw) && file.content.Read? && LeakSearch.Expected(raw, file, f)
    ensures f.kind != Unreadable
  {
    var text := file.content.text;
    var lines := LeakSearch.LinesFrom(text, 0);
    var n: nat :| n < |lines| && LeakSearch.InLine(raw, file.name, text, n, lines[n], f);
    var m :| LeakScan.IsMatch(raw, lines[n].text, m) && f == LeakSearch.FindingOf(raw, file.name, text, n, lines[n], m);
    assert m.entry in raw;
  }

  lemma PublishedNext(before: Files, out: Files, files: seq<Staged>, i: nat)
    requires i < |files| && UniqueNames(files) && Holds(before, files[..i])
    requires out == before[files[i].name := Text(files[i].bytes)]
    ensures Holds(out, files[..i + 1])
  {
    assert files[..i + 1][..i] == files[..i];
  }

  lemma HashesNext(checks: Checks, files: seq<Staged>, i: nat)
    requires i < |files|
    ensures Hashes(checks, files[..i + 1]) == Hashes(checks, files[..i])[files[i].name := (checks.hash)(files[i].bytes)]
  {
    assert files[..i + 1][..i] == files[..i];
  }

  // ----- the whole capture

  /** What --out is before and after. */
  datatype OutDir = Absent | NotDirectory | Directory(files: Files)

  /** A previous capture's manifest: a JSON object. */
  predicate IsManifest(c: Content, parses: string -> bool) { c.Json? || parses(c.text) }

  /** Not a directory, one that cannot be made, or one that holds files but no previous capture. */
  predicate Refused(dir: OutDir, canCreate: bool, parses: string -> bool) {
    match dir
    case Absent => !canCreate
    case NotDirectory => true
    case Directory(files) =>
      files != map[] && !("manifest.json" in files && IsManifest(files["manifest.json"], parses))
  }

  /** --out with the files of a previous capture removed, whatever its manifest lists. */
  function Cleaned(dir: OutDir): Files
    requires !dir.NotDirectory?
  {
    if dir.Absent? then map[] else dir.files - (DATA_FILES + RECORD_FILES)
  }

  method PrepareOut(dir: OutDir, canCreate: bool, parses: string -> bool) returns (ready: bool, files: Files)
    ensures ready <==> !Refused(dir, canCreate, parses)
    ensures ready ==> files == Cleaned(dir)
  {
    files := map[];
    match dir
    case Absent => ready := canCreate;
    case NotDirectory => ready := false;
    case Directory(before) =>
      if before == map[] {
        return true, before;
      }
      if "manifest.json" !in before {
        return false, files;
      }
      var previous := before["manifest.json"];
      if previous.Text? && !parses(previous.text) {
        return false, files;
      }
      ready, files := true, before - DATA_FILES - RECORD_FILES;
  }

  method Capture(inputs: Inputs, checks: Checks, dir: OutDir, canCreate: bool, parses: string -> bool,
                 fault: nat -> Fault)
    returns (outcome: Outcome, after: OutDir)
    requires ValidInputs(inputs)
    ensures Refused(dir, canCreate, parses) ==> after == dir && outcome == Outcome(1, None)
    ensures !Refused(dir, canCreate, parses) ==>
              after.Directory? && PublicationSafe(inputs, checks, Cleaned(dir), after.files, outcome)
    ensures !Refused(dir, canCreate, parses) && Judged(inputs, fault, 0) && RealKinds(inputs.raw) ==>
              (outcome.exitCode == 3 <==> SchemaOrLeak(inputs, checks))
    ensures !Refused(dir, canCreate, parses) && Smooth(inputs) && (forall k: nat :: fault(k).Fine?)
            && RealKinds(inputs.raw) ==>
              outcome.exitCode == ExitOf(inputs, checks) && "manifest.json" in after.files
  {
    var ready, files := PrepareOut(dir, canCreate, parses);
    if !ready {
      return Outcome(1, None), dir;
    }
    var disk := new Disk(fault, files);
    var run := new Run(inputs, checks, disk);
    outcome := run.Go(files);
    after := Directory(disk.out);
  }

  /** Data files remain exactly when the exit code says so. */
  lemma DataIffExit(inputs: Inputs, checks: Checks, out0: Files, out: Files, outcome: Outcome)
    requires PublicationSafe(inputs, checks, out0, out, outcome)
    ensures (exists n :: n in DATA_FILES && n in out) <==> outcome.exitCode == 0 || outcome.exitCode == 2
    ensures outcome.exitCode == 0 || outcome.exitCode == 2 <==> Published(inputs, checks, out, outcome)
    ensures outcome.topologyId.Some? <==> outcome.exitCode == 0 || outcome.exitCode == 2
  {
    if Published(inputs, checks, out, outcome) {
      var f := Staged("meta.json", inputs.metaDoc);
      assert f in StagedFiles(inputs);
      AsMapKeys(StagedFiles(inputs), f.name);
      assert f.name in out;
    }
  }

  /** A broken schema or an identifier in any file searched: nothing is published, whatever else happens. */
  lemma AnyMatchFails(inputs: Inputs, checks: Checks, out0: Files, out: Files, outcome: Outcome)
    requires PublicationSafe(inputs, checks, out0, out, outcome) && SchemaOrLeak(inputs, checks)
    ensures Withdrawn(out, outcome)
  {
    if Leaks(inputs.raw, SearchedFiles(inputs)) {
      var i: nat :| i < |SearchedFiles(inputs)| && SearchedFiles(inputs)[i].content.Read?
                    && !LeakSearch.CleanText(inputs.raw, SearchedFiles(inputs)[i].content.text);
      assert !LeakSearch.AllClean(inputs.raw, SearchedFiles(inputs));
    }
  }

  /** A published file holds no identifier of the machine, on any line. */
  lemma PublishedClean(inputs: Inputs, checks: Checks, out: Files, outcome: Outcome, name: string)
    requires Published(inputs, checks, out, outcome) && name in DATA_FILES && name in out
    ensures out[name].Text? && LeakSearch.CleanText(inputs.raw, out[name].text)
    ensures name in out["manifest.json"].manifest.files
    ensures out["manifest.json"].manifest.files[name] == (checks.hash)(out[name].text)
    ensures name != "hwloc.xml" ==> checks.schemaOk(name, out[name].text)
  {
    var files := StagedFiles(inputs);
    var searched := SearchedFiles(inputs);
    StagedUnique(inputs);
    AsMapKeys(files, name);
    var f :| f in files && f.name == name;
    AsMapHas(files, f);
    var i: nat :| i < |files| && files[i] == f;
    assert searched[i].content.Read? && LeakSearch.CleanText(inputs.raw, searched[i].content.text);
  }

  /** The diagnostics left by a run that succeeded hold no identifier exactly when the lines noted after the leak
      search hold none. */
  lemma DiagnosticsCleanIff(inputs: Inputs, checks: Checks, out: Files, outcome: Outcome)
    requires Published(inputs, checks, out, outcome)
    ensures out["diagnostics.txt"].Text?
    ensures LeakSearch.CleanText(inputs.raw, out["diagnostics.txt"].text)
       <==> AllLinesClean(inputs.raw, LaterLines(inputs, outcome.exitCode))
  {
    var searched := SearchedFiles(inputs);
    assert searched[|StagedFiles(inputs)|].content.Read?;
    LaterLinesClean(inputs.raw, SearchedLines(inputs), LaterLines(inputs, outcome.exitCode));
  }

  /** The inputs of a run on a host named replay, whose files are empty. */
  function ReplayHost(): Inputs {
    Inputs(Some(""), NotRequired, "", NoLinks, "", [RawEntry(Hostname, Token, "replay")],
           Notes([], [], [], [], "", "", ""), false, NoCrash, {})
  }

  lemma ReplayHostLines()
    ensures SearchedLines(ReplayHost()) == ["emit: hwloc.xml in "]
  {
    assert "emit: hwloc.xml in " + "" == "emit: hwloc.xml in ";
    assert CollectedLines(ReplayHost()) == ["emit: hwloc.xml in "];
  }

  lemma ReplayHostClean()
    ensures LeakSearch.AllClean(ReplayHost().raw, SearchedFiles(ReplayHost()))
  {
    ReplayHostNotes();
    assert LeakSearch.CleanText(ReplayHost().raw, "");
    EmptyFilesClean(ReplayHost().raw, StagedFiles(ReplayHost()), Written(SearchedLines(ReplayHost())));
  }

  lemma EmptyFilesClean(raw: seq<RawEntry>, files: seq<Staged>, text: string)
    requires (forall f :: f in files ==> f.bytes == "") && LeakSearch.CleanText(raw, text)
    ensures LeakSearch.AllClean(raw, Searched(files, text, {}))
  {
  }

  lemma ReplayHostNotes()
    ensures LeakSearch.CleanText(ReplayHost().raw, Written(SearchedLines(ReplayHost())))
  {
    ReplayHostLines();
    CleanWithoutR(ReplayHost().raw, "emit: hwloc.xml in ");
    WrittenClean(ReplayHost().raw, SearchedLines(ReplayHost()));
  }

  /** A capture on a host named replay succeeds and leaves the name in the diagnostics. */
  method DiagnosticsMayLeak() returns (outcome: Outcome, after: OutDir)
    ensures RawEntry(Hostname, Token, "replay") in ReplayHost().raw
    ensures outcome.exitCode == 0 && after.Directory? && "diagnostics.txt" in after.files
    ensures var content := after.files["diagnostics.txt"];
            content.Text? && !LeakSearch.CleanText(ReplayHost().raw, content.text)
  {
    var checks := Checks((n, b) => true, files => Id("topo1"), b => "");
    ReplayHostClean();
    outcome, after := Capture(ReplayHost(), checks, Absent, true, s => false, n => Fine);
    DataIffExit(ReplayHost(), checks, map[], after.files, outcome);
    ReplayHostLeaks(ReplayHost(), checks, after.files, outcome);
  }

  /** Every run that succeeds on such a host does. */
  lemma ReplayHostLeaks(inputs: Inputs, checks: Checks, out: Files, outcome: Outcome)
    requires Published(inputs, checks, out, outcome) && RawEntry(Hostname, Token, "replay") in inputs.raw
    ensures out["diagnostics.txt"].Text? && !LeakSearch.CleanText(inputs.raw, out["diagnostics.txt"].text)
  {
    DiagnosticsCleanIff(inputs, checks, out, outcome);
    ReplayNoteLeaks(inputs.raw, inputs.notes.replayTime);
    assert LaterLines(inputs, outcome.exitCode)[1] == ReplayNote(inputs.notes.replayTime);
  }

  /** Names other than a capture's own are kept as they were. */
  lemma OthersKept(inputs: Inputs, checks: Checks, before: Files, out: Files, outcome: Outcome, name: string)
    requires PublicationSafe(inputs, checks, Cleaned(Directory(before)), out, outcome)
    requires name !in DATA_FILES + RECORD_FILES
    ensures (name in out <==> name in before) && (name in out ==> out[name] == before[name])
  {
  }
}
