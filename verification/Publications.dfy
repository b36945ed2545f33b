/** What a capture leaves in --out, name by name. */
module Publications {
  import opened Diagnostics
  import opened Pipeline
  import JsonSpans
  import LeakSearch

  // ----- the files of a capture that succeeded

  ghost predicate Has(out: Files, name: string, bytes: string) {
    name in out && out[name] == Text(bytes)
  }

  /** The data files are those of the sources, byte for byte; GPUs and links have one where they were read. */
  lemma PublishedFiles(inputs: Inputs, checks: Checks, out: Files, outcome: Outcome)
    requires Published(inputs, checks, out, outcome)
    ensures inputs.hwlocXml.Some? && Has(out, "hwloc.xml", inputs.hwlocXml.value)
    ensures Has(out, "nics.json", inputs.nics) && Has(out, "meta.json", inputs.metaDoc)
    ensures "nvml.json" in out <==> inputs.nvml.Facts?
    ensures inputs.nvml.Facts? ==> Has(out, "nvml.json", inputs.nvml.bytes)
    ensures "links.json" in out <==> inputs.links.LinksDoc?
    ensures inputs.links.LinksDoc? ==> Has(out, "links.json", inputs.links.bytes)
  {
    StagedMap(inputs);
  }

  /** The staged files as a map. */
  lemma StagedMap(inputs: Inputs)
    requires inputs.hwlocXml.Some? && !inputs.links.BadLinks?
    ensures var m := AsMap(StagedFiles(inputs));
            && "hwloc.xml" in m && m["hwloc.xml"] == inputs.hwlocXml.value
            && "nics.json" in m && m["nics.json"] == inputs.nics && "meta.json" in m && m["meta.json"] == inputs.metaDoc
            && ("nvml.json" in m <==> inputs.nvml.Facts?)
            && (inputs.nvml.Facts? ==> m["nvml.json"] == inputs.nvml.bytes)
            && ("links.json" in m <==> inputs.links.LinksDoc?)
            && (inputs.links.LinksDoc? ==> m["links.json"] == inputs.links.bytes)
  {
    StagedAt(inputs, "hwloc.xml", inputs.hwlocXml.value);
    StagedAt(inputs, "nics.json", inputs.nics);
    StagedAt(inputs, "meta.json", inputs.metaDoc);
    StagedAt(inputs, "nvml.json", if inputs.nvml.Facts? then inputs.nvml.bytes else "");
    StagedAt(inputs, "links.json", if inputs.links.LinksDoc? then inputs.links.bytes else "");
  }

  /** A name is staged with some bytes exactly when the sources say so. */
  lemma StagedAt(inputs: Inputs, name: string, bytes: string)
    requires inputs.hwlocXml.Some? && !inputs.links.BadLinks?
    ensures var m := AsMap(StagedFiles(inputs));
            && (name in m ==> IsStaged(inputs, Staged(name, m[name])))
            && (IsStaged(inputs, Staged(name, bytes)) ==> name in m && m[name] == bytes)
  {
    var files := StagedFiles(inputs);
    StagedUnique(inputs);
    AsMapKeys(files, name);
    StagedIff(inputs, Staged(name, bytes));
    if Staged(name, bytes) in files {
      AsMapHas(files, Staged(name, bytes));
    }
    if name in AsMap(files) {
      var f :| f in files && f.name == name;
      AsMapHas(files, f);
      StagedIff(inputs, f);
      assert f == Staged(name, AsMap(files)[name]);
    }
  }

  ghost predicate IsStaged(inputs: Inputs, f: Staged)
    requires inputs.hwlocXml.Some?
  {
    || f == Staged("hwloc.xml", inputs.hwlocXml.value)
    || f == Staged("nics.json", inputs.nics) || f == Staged("meta.json", inputs.metaDoc)
    || (inputs.nvml.Facts? && f == Staged("nvml.json", inputs.nvml.bytes))
    || (inputs.links.LinksDoc? && f == Staged("links.json", inputs.links.bytes))
  }

  lemma StagedIff(inputs: Inputs, f: Staged)
    requires inputs.hwlocXml.Some? && !inputs.links.BadLinks?
    ensures f in StagedFiles(inputs) <==> IsStaged(inputs, f)
  {
  }

  /** The names under which data is published. */
  ghost predicate IsDataName(name: string) {
    || name == "hwloc.xml" || name == "nvml.json" || name == "nics.json" || name == "links.json" || name == "meta.json"
  }

  /** Every data file but hwloc.xml passed its schema; each is free of identifiers and listed with its hash, and the
      manifest lists no other. */
  lemma PublishedChecked(inputs: Inputs, checks: Checks, out: Files, outcome: Outcome, name: string)
    requires Published(inputs, checks, out, outcome)
    ensures name in out["manifest.json"].manifest.files <==> IsDataName(name) && name in out
    ensures IsDataName(name) && name in out ==>
              && out[name].Text? && LeakSearch.CleanText(inputs.raw, out[name].text)
              && out["manifest.json"].manifest.files[name] == (checks.hash)(out[name].text)
              && (name != "hwloc.xml" ==> checks.schemaOk(name, out[name].text))
  {
    StagedUnique(inputs);
    AsMapKeys(StagedFiles(inputs), name);
    if IsDataName(name) && name in out {
      PublishedClean(inputs, checks, out, outcome, name);
    }
  }

  /** A broken schema of any JSON file, or an identifier in any file or line searched: no data file is left. */
  lemma BrokenWithdrawn(inputs: Inputs, checks: Checks, out0: Files, out: Files, outcome: Outcome)
    requires PublicationSafe(inputs, checks, out0, out, outcome) && inputs.hwlocXml.Some? && !inputs.links.BadLinks?
    requires || !checks.schemaOk("nics.json", inputs.nics) || !checks.schemaOk("meta.json", inputs.metaDoc)
             || (inputs.nvml.Facts? && !checks.schemaOk("nvml.json", inputs.nvml.bytes))
             || (inputs.links.LinksDoc? && !checks.schemaOk("links.json", inputs.links.bytes))
    ensures forall name :: IsDataName(name) ==> name !in out
    ensures outcome.exitCode == 1 || outcome.exitCode == 3
  {
    forall f ensures f in StagedFiles(inputs) <==> IsStaged(inputs, f) {
      StagedIff(inputs, f);
    }
    assert SchemaOrLeak(inputs, checks);
    AnyMatchFails(inputs, checks, out0, out, outcome);
  }

  /** A capture that fails leaves no data file. */
  lemma NoneLeft(inputs: Inputs, checks: Checks, out0: Files, out: Files, outcome: Outcome)
    requires PublicationSafe(inputs, checks, out0, out, outcome)
    ensures (exists name :: IsDataName(name) && name in out) <==> outcome.exitCode == 0 || outcome.exitCode == 2
    ensures outcome.exitCode == 0 || outcome.exitCode == 1 || outcome.exitCode == 2 || outcome.exitCode == 3
  {
    if Published(inputs, checks, out, outcome) {
      PublishedFiles(inputs, checks, out, outcome);
      assert IsDataName("meta.json") && "meta.json" in out;
    }
  }

  /** The id is that of the replay of the published files, by name. */
  lemma PublishedId(inputs: Inputs, checks: Checks, out: Files, outcome: Outcome) returns (files: map<string, string>)
    requires Published(inputs, checks, out, outcome)
    ensures forall name :: name in files <==> IsDataName(name) && name in out
    ensures forall name :: name in files ==> out[name] == Text(files[name])
    ensures outcome.topologyId.Some? && (checks.replay)(files) == Id(outcome.topologyId.value)
  {
    files := AsMap(StagedFiles(inputs));
    StagedUnique(inputs);
    forall name | name in files ensures IsDataName(name) {
      AsMapKeys(StagedFiles(inputs), name);
    }
  }

  /** The leak search reads each staged file under its name, and the diagnostics as far as they are written. */
  lemma SearchedIff(inputs: Inputs, file: LeakSearch.File)
    requires inputs.hwlocXml.Some? && !inputs.links.BadLinks?
    ensures file in SearchedFiles(inputs) <==> IsSearched(inputs, file)
  {
    var files, text := StagedFiles(inputs), Written(SearchedLines(inputs));
    var searched := SearchedFiles(inputs);
    forall f ensures f in files <==> IsStaged(inputs, f) {
      StagedIff(inputs, f);
    }
    if file in searched {
      var i: nat :| i < |searched| && searched[i] == file;
      assert i < |files| ==> files[i] in files;
    }
    if f :| IsStaged(inputs, f) && file == AsSearched(inputs, f) {
      var i: nat :| i < |files| && files[i] == f;
      assert searched[i] == file;
    }
    assert searched[|files|] == AsSearched(inputs, Staged("diagnostics.txt", text));
  }

  ghost function AsSearched(inputs: Inputs, f: Staged): LeakSearch.File {
    LeakSearch.File(f.name, if f.name in inputs.unreadable then LeakSearch.Unread else LeakSearch.Read(f.bytes))
  }

  ghost predicate IsSearched(inputs: Inputs, file: LeakSearch.File)
    requires inputs.hwlocXml.Some?
  {
    || file == AsSearched(inputs, Staged("diagnostics.txt", Written(SearchedLines(inputs))))
    || exists f :: IsStaged(inputs, f) && file == AsSearched(inputs, f)
  }

  /** The manifest of a capture that failed gives a reason, out of those it has a message for. */
  lemma FailureExplained(inputs: Inputs, checks: Checks, out0: Files, out: Files, outcome: Outcome)
    requires PublicationSafe(inputs, checks, out0, out, outcome) && "manifest.json" in out
    requires outcome.exitCode == 1 || outcome.exitCode == 3
    ensures out["manifest.json"].Json? && out["manifest.json"].manifest.errors != []
    ensures forall e :: e in out["manifest.json"].manifest.errors ==>
              || e == "hwloc_load" || e == "xml_reimport" || e == "links_read" || e == "links_schema" || e == "schema"
              || e == "leak" || e == "output_unreadable" || e == "replay" || e == "write_failed" || e == "internal"
  {
  }

  // ----- the other names

  ghost predicate IsRecordName(name: string) {
    name == "diagnostics.txt" || name == "manifest.json" || name == "manifest.json.tmp"
  }

  /** Of what was in --out a capture removes its own names and no other. */
  lemma CleanedIff(dir: OutDir, name: string)
    requires !dir.NotDirectory?
    ensures name in Cleaned(dir) <==>
              dir.Directory? && name in dir.files && !IsDataName(name) && !IsRecordName(name)
    ensures name in Cleaned(dir) ==> Cleaned(dir)[name] == dir.files[name]
  {
  }

  /** A file of another name is as it was. */
  lemma OthersAsBefore(inputs: Inputs, checks: Checks, before: Files, out: Files, outcome: Outcome, name: string)
    requires PublicationSafe(inputs, checks, Cleaned(Directory(before)), out, outcome)
    requires !IsDataName(name) && !IsRecordName(name)
    ensures (name in out <==> name in before) && (name in out ==> out[name] == before[name])
  {
    OthersKept(inputs, checks, before, out, outcome, name);
  }

  // ----- the last line of the diagnostics

  ghost predicate EndsWith(text: string, end: string) {
    |end| <= |text| && text[|text| - |end|..] == end
  }

  /** With a manifest there are diagnostics, and their last line is the exit code. */
  lemma ExitNoted(inputs: Inputs, checks: Checks, out0: Files, out: Files, outcome: Outcome)
    requires PublicationSafe(inputs, checks, out0, out, outcome) && "manifest.json" in out
    ensures "diagnostics.txt" in out && out["diagnostics.txt"].Text?
    ensures outcome.exitCode <= 3
    ensures EndsWith(out["diagnostics.txt"].text, "capture: exit " + ["0123"[outcome.exitCode]] + "\n")
  {
    var lines :| HasDiagnostics(out, lines + [ExitNote(outcome.exitCode)]);
    LastRendered(lines, ExitNote(outcome.exitCode));
    ExitDigit(outcome.exitCode);
  }

  lemma LastRendered(lines: seq<string>, last: string)
    ensures EndsWith(Written(lines + [last]), last + "\n")
  {
    assert (lines + [last])[..|lines|] == lines;
    var before := Rendered(lines);
    assert Written(lines + [last]) == (before + if before == [] then [] else "\n") + (last + "\n");
  }

  lemma ExitDigit(code: nat)
    requires code <= 3
    ensures ExitNote(code) == "capture: exit " + ["0123"[code]]
  {
    assert JsonSpans.Decimal(code) == [JsonSpans.Digit(code)];
    assert code == 0 || code == 1 || code == 2 || code == 3;
  }
}
