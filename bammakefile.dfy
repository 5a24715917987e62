// The makefile normalisation of the BAM pipeline,
// pypeline/tools/bam_pipeline/makefile.py: the check on prefix names, the
// propagation of `Options` from targets and samples down to libraries, the
// classification of lanes, the read-group tags of every lane, the naming of
// lanes split by filename, and the checks across libraries and makefiles.
//
// A validated makefile has a fixed shape (target -> sample -> library ->
// lane), so it is modelled by the datatypes below rather than as nested
// dictionaries; each `_update_*` function, which rewrites that structure in
// place, becomes a function returning the rewritten structure. Python's
// dictionary order is unspecified; where it decides which error is raised,
// the model takes keys in sorted order.
module BamMakefile {
  import opened PyErrors
  import opened PyValues
  import opened PyCompare
  import opened PyText
  import Makefile
  import FileUtils

  // ---------------------------------------------------------------------
  // _IsValidPrefixName

  /** The names `_IsValidPrefixName` compares the title-cased name with. */
  const Reserved: seq<string> :=
    ["Single", "Collapsed", "Paired", "SingleReads", "CollapsedReads", "PairedReads", "Options"]

  predicate HasSpace(s: string)
  {
    exists i :: 0 <= i < |s| && IsSpace(s[i])
  }

  /** `_IsValidPrefixName` as written: the name is title-cased before it is
      compared with `Reserved`, and the second white-space test repeats the
      first. */
  function PrefixNameCheckAsWritten(name: string): (r: Outcome)
    ensures r.Fail? ==> r.error == MakefileError
  {
    var titled := Title(name);
    if titled in Reserved then Fail(MakefileError)
    else if HasSpace(titled) then Fail(MakefileError)
    else if HasSpace(titled) then Fail(MakefileError)
    else Pass
  }

  /** No title-cased string is one of the "...Reads" names, whose capital
      `R` follows a letter. */
  lemma TitleNeverReadsForm(name: string)
    ensures Title(name) != "SingleReads" && Title(name) != "CollapsedReads" && Title(name) != "PairedReads"
  {
    TitleFromShape(name, false);
    var t := Title(name);
    if |t| == 11 {
      assert IsCased(t[5]) <==> IsCased(name[5]);
      assert IsCased(name[5]) ==> !IsUpperAscii(t[6]);
    }
    if |t| == 14 {
      assert IsCased(t[8]) <==> IsCased(name[8]);
      assert IsCased(name[8]) ==> !IsUpperAscii(t[9]);
    }
  }

  /** So only four of the seven reserved names can be refused. */
  lemma TitledReserved(name: string)
    ensures Title(name) in Reserved ==> Title(name) in ["Single", "Collapsed", "Paired", "Options"]
  {
    TitleNeverReadsForm(name);
  }

  /** The name as a whole prefix name, whatever its case, is refused. */
  function PrefixNameCheck(name: string): (r: Outcome)
    ensures r.Fail? <==> (exists i :: 0 <= i < |Reserved| && Lower(name) == Lower(Reserved[i])) || HasSpace(name)
    ensures r.Fail? ==> r.error == MakefileError
  {
    if exists i :: 0 <= i < |Reserved| && Lower(name) == Lower(Reserved[i]) then Fail(MakefileError)
    else if HasSpace(name) then Fail(MakefileError)
    else Pass
  }

  /** Title-casing keeps white-space and the lower-cased form. */
  lemma TitleKeepsLowerAndSpace(name: string)
    ensures Lower(Title(name)) == Lower(name)
    ensures HasSpace(Title(name)) <==> HasSpace(name)
  {
    TitleFromShape(name, false);
    var t := Title(name);
    assert forall i :: 0 <= i < |name| ==> (IsSpace(t[i]) <==> IsSpace(name[i])) by {
      forall i | 0 <= i < |name|
        ensures IsSpace(t[i]) <==> IsSpace(name[i])
      {
        assert LowerChar(t[i]) == LowerChar(name[i]);
      }
    }
    if HasSpace(name) {
      var i :| 0 <= i < |name| && IsSpace(name[i]);
      assert IsSpace(t[i]);
    }
    if HasSpace(t) {
      var i :| 0 <= i < |t| && IsSpace(t[i]);
      assert IsSpace(name[i]);
    }
  }

  /** Every name the check as written refuses is refused by the corrected
      check; the corrected one also refuses the "...Reads" names. */
  lemma PrefixNameCheckStronger(name: string)
    ensures PrefixNameCheckAsWritten(name).Fail? ==> PrefixNameCheck(name).Fail?
    ensures forall i :: 0 <= i < |Reserved| ==> PrefixNameCheck(Reserved[i]).Fail?
  {
    TitleKeepsLowerAndSpace(name);
    var t := Title(name);
    if t in Reserved {
      var i :| 0 <= i < |Reserved| && Reserved[i] == t;
      assert Lower(name) == Lower(Reserved[i]);
    }
    forall i | 0 <= i < |Reserved|
      ensures PrefixNameCheck(Reserved[i]).Fail?
    {
      assert Lower(Reserved[i]) == Lower(Reserved[i]);
    }
  }

  /** As written, a name passes exactly when it has no white-space and,
      title-cased, is none of the four names without "Reads". */
  lemma AsWrittenAcceptsMeaning(name: string)
    ensures PrefixNameCheckAsWritten(name) == Pass <==>
      !HasSpace(name) && Title(name) !in ["Single", "Collapsed", "Paired", "Options"]
  {
    TitledReserved(name);
    TitleKeepsLowerAndSpace(name);
  }

  /** As written, any name of eleven characters without white-space is
      accepted: no reserved name of that length is title-cased. */
  lemma AsWrittenAcceptsLongNames(name: string)
    requires |name| == 11 && !HasSpace(name)
    ensures PrefixNameCheckAsWritten(name) == Pass
  {
    TitledReserved(name);
    TitleFromShape(name, false);
    TitleKeepsLowerAndSpace(name);
  }

  /** As written, "SingleReads" is accepted as a prefix name. */
  lemma ReadsPrefixAccepted()
    ensures PrefixNameCheckAsWritten("SingleReads") == Pass
  {
    var name := "SingleReads";
    assert !HasSpace(name) by {
      forall i | 0 <= i < |name|
        ensures !IsSpace(name[i])
      {
      }
    }
    AsWrittenAcceptsLongNames(name);
  }

  /** Corrected, "SingleReads" is refused as a prefix name. */
  lemma ReadsPrefixRefused()
    ensures PrefixNameCheck("SingleReads") == Fail(MakefileError)
  {
    assert Lower("SingleReads") == Lower(Reserved[3]);
  }

  // ---------------------------------------------------------------------
  // The makefile's structure

  /** A target: its own `Options`, if given, and its samples. */
  datatype Target<L> = Target(options: Option<Value>, samples: map<string, Sample<L>>)

  /** A sample: its own `Options`, if given, and its libraries. */
  datatype Sample<L> = Sample(options: Option<Value>, libraries: map<string, L>)

  /** A library as read: its own `Options`, if given, and its lanes, each a
      path template or a dictionary of files. */
  datatype Library = Library(options: Option<Value>, lanes: map<string, Value>)

  /** The type `_update_lanes` finds for a lane; `Untyped` is the `None` it
      leaves for a lane that is neither a string nor a dictionary. */
  datatype LaneType = Raw | Trimmed | BAMs | Untyped

  /** The read-group tags of a lane. */
  datatype Tags = Tags(target: string, id: string, sm: string, lb: string, puSrc: string, puCur: string,
                       pg: Value, pl: Value)

  /** A lane once `_update_lanes` has classified it; `_update_tags` adds the tags. */
  datatype Record = Record(laneType: LaneType, data: Value, options: Value, tags: Option<Tags>)

  /** The lanes of a library after `_update_lanes`: barcode to record. */
  type Lanes = map<string, Record>

  /** Applies `f` to every entry of `m`, taking the keys in sorted order; the
      first failure is the result. */
  function MapResults<V, W>(m: map<string, V>, f: (string, V) -> Result<W>): (r: Result<map<string, W>>)
    ensures r.Ok? <==> forall k :: k in m ==> f(k, m[k]).Ok?
    ensures r.Ok? ==> r.value.Keys == m.Keys && forall k :: k in m ==> r.value[k] == f(k, m[k]).value
    ensures r.Err? ==> exists k :: k in m && f(k, m[k]) == Err(r.error)
  {
    var keys := SortedSet(m.Keys);
    MapOverMeaning(m, keys, f);
    MapOver(m, keys, f)
  }

  function MapOver<V, W>(m: map<string, V>, keys: seq<string>, f: (string, V) -> Result<W>): Result<map<string, W>>
    requires forall i :: 0 <= i < |keys| ==> keys[i] in m
    decreases |keys|
  {
    if |keys| == 0 then Ok(map[])
    else
      var w :- f(keys[0], m[keys[0]]);
      var rest :- MapOver(m, keys[1..], f);
      Ok(rest[keys[0] := w])
  }

  lemma {:induction false} MapOverMeaning<V, W>(m: map<string, V>, keys: seq<string>, f: (string, V) -> Result<W>)
    requires forall i :: 0 <= i < |keys| ==> keys[i] in m
    ensures var r := MapOver(m, keys, f);
      (r.Ok? <==> forall i :: 0 <= i < |keys| ==> f(keys[i], m[keys[i]]).Ok?) &&
      (r.Ok? ==> (forall k :: k in r.value <==> k in keys) && forall k :: k in r.value ==> r.value[k] == f(k, m[k]).value) &&
      (r.Err? ==> exists i :: 0 <= i < |keys| && f(keys[i], m[keys[i]]) == Err(r.error))
    decreases |keys|
  {
    if |keys| > 0 {
      MapOverMeaning(m, keys[1..], f);
      var r := MapOver(m, keys, f);
      if r.Ok? {
        forall k | k in keys
          ensures k in r.value
        {
          var i :| 0 <= i < |keys| && keys[i] == k;
          if i > 0 {
            assert keys[1..][i - 1] == k;
          }
        }
      }
      if f(keys[0], m[keys[0]]).Ok? && MapOver(m, keys[1..], f).Err? {
        var i :| 0 <= i < |keys[1..]| && f(keys[1..][i], m[keys[1..][i]]) == Err(r.error);
        assert keys[1..][i] == keys[i + 1];
      }
      if r.Ok? {
        forall i | 0 <= i < |keys|
          ensures f(keys[i], m[keys[i]]).Ok?
        {
          if i > 0 {
            assert keys[1..][i - 1] == keys[i];
          }
        }
      }
    }
  }

  // ---------------------------------------------------------------------
  // _update_options

  /** The options in force below a level: its own `Options`, if any, merged
      over the inherited ones by `apply_defaults`. */
  function Override(inherited: Value, own: Option<Value>): (r: Result<Value>)
  {
    if own.None? then Ok(inherited) else Makefile.ApplyDefaults(own.value, inherited)
  }

  /** What a level's options make of one key: a value given at this level
      wins unless both it and the inherited value are dictionaries; a key the
      level does not name keeps its inherited value. */
  lemma OverrideMeaning(inherited: Value, own: Option<Value>)
    ensures Override(inherited, own).Ok? <==> own.None? || (own.value.PDict? && inherited.PDict?)
    ensures own.Some? && Override(inherited, own).Ok? ==>
      var v := Override(inherited, own).value;
      v.PDict? && v.entries.Keys == own.value.entries.Keys + inherited.entries.Keys &&
      (forall k :: k in own.value.entries && !(own.value.entries[k].PDict? && k in inherited.entries && inherited.entries[k].PDict?)
         ==> v.entries[k] == own.value.entries[k]) &&
      (forall k :: k in inherited.entries && k !in own.value.entries ==> v.entries[k] == inherited.entries[k])
    ensures Override(inherited, own).Err? ==> Override(inherited, own).error == MakefileError
  {
    if own.Some? && own.value.PDict? && inherited.PDict? {
      var v := Override(inherited, own).value;
      assert v.entries == Makefile.Merge(own.value, inherited);
    }
  }

  function LibraryOptions(inherited: Value, library: Library): Result<Library>
  {
    var options :- Override(inherited, library.options);
    Ok(Library(Some(options), library.lanes))
  }

  function SampleOptions(inherited: Value, sample: Sample<Library>): Result<Sample<Library>>
  {
    var options :- Override(inherited, sample.options);
    var libraries :- MapResults(sample.libraries, (_, library) => LibraryOptions(options, library));
    Ok(Sample(None, libraries))
  }

  function TargetOptions(inherited: Value, target: Target<Library>): Result<Target<Library>>
  {
    var options :- Override(inherited, target.options);
    var samples :- MapResults(target.samples, (_, sample) => SampleOptions(options, sample));
    Ok(Target(None, samples))
  }

  /** `_update_options`: every target's and sample's `Options` are removed,
      and every library gets the makefile's options overridden in turn by
      its target's, its sample's and its own. */
  function UpdateOptions(options: Value, targets: map<string, Target<Library>>): Result<map<string, Target<Library>>>
  {
    MapResults(targets, (_, target) => TargetOptions(options, target))
  }

  /** The options `_update_options` gives the library at `t`, `s`, `l`. */
  function LibraryOptionsAt(options: Value, target: Target<Library>, sample: Sample<Library>, library: Library): Result<Value>
  {
    var forTarget :- Override(options, target.options);
    var forSample :- Override(forTarget, sample.options);
    Override(forSample, library.options)
  }

  /** After `_update_options` the structure and the lanes are unchanged,
      targets and samples hold no options, and each library holds the
      options of its path. */
  lemma {:induction false} UpdateOptionsMeaning(options: Value, targets: map<string, Target<Library>>, t: string, s: string, l: string)
    requires UpdateOptions(options, targets).Ok?
    ensures var r := UpdateOptions(options, targets).value;
      r.Keys == targets.Keys &&
      (t in targets ==> r[t].options.None? && r[t].samples.Keys == targets[t].samples.Keys) &&
      (t in targets && s in targets[t].samples ==>
         r[t].samples[s].options.None? &&
         r[t].samples[s].libraries.Keys == targets[t].samples[s].libraries.Keys) &&
      (t in targets && s in targets[t].samples && l in targets[t].samples[s].libraries ==>
         var library := targets[t].samples[s].libraries[l];
         LibraryOptionsAt(options, targets[t], targets[t].samples[s], library).Ok? &&
         r[t].samples[s].libraries[l] ==
           Library(Some(LibraryOptionsAt(options, targets[t], targets[t].samples[s], library).value), library.lanes))
  {
    if t in targets {
      TargetOptionsMeaning(options, targets[t], s, l);
    }
  }

  lemma TargetOptionsMeaning(options: Value, target: Target<Library>, s: string, l: string)
    requires TargetOptions(options, target).Ok?
    ensures var r := TargetOptions(options, target).value;
      r.options.None? && r.samples.Keys == target.samples.Keys &&
      (s in target.samples ==>
         r.samples[s].options.None? &&
         r.samples[s].libraries.Keys == target.samples[s].libraries.Keys) &&
      (s in target.samples && l in target.samples[s].libraries ==>
         var library := target.samples[s].libraries[l];
         LibraryOptionsAt(options, target, target.samples[s], library).Ok? &&
         r.samples[s].libraries[l] ==
           Library(Some(LibraryOptionsAt(options, target, target.samples[s], library).value), library.lanes))
  {
    var forTarget := Override(options, target.options).value;
    if s in target.samples {
      assert SampleOptions(forTarget, target.samples[s]).Ok?;
      SampleOptionsMeaning(forTarget, target.samples[s], l);
    }
  }

  lemma SampleOptionsMeaning(inherited: Value, sample: Sample<Library>, l: string)
    requires SampleOptions(inherited, sample).Ok?
    ensures var r := SampleOptions(inherited, sample).value;
      var forSample := Override(inherited, sample.options);
      forSample.Ok? && r.options.None? && r.libraries.Keys == sample.libraries.Keys &&
      (l in sample.libraries ==>
         var library := sample.libraries[l];
         Override(forSample.value, library.options).Ok? &&
         r.libraries[l] == Library(Some(Override(forSample.value, library.options).value), library.lanes))
  {
    var forSample := Override(inherited, sample.options).value;
    if l in sample.libraries {
      assert LibraryOptions(forSample, sample.libraries[l]).Ok?;
    }
  }

  /** A key set at the library level with a value that is not a dictionary
      is what the library ends up with; a key no level names keeps the
      makefile's value. */
  lemma LibraryOptionsPrecedence(options: Value, target: Target<Library>, sample: Sample<Library>, library: Library, k: string)
    requires LibraryOptionsAt(options, target, sample, library).Ok?
    ensures var v := LibraryOptionsAt(options, target, sample, library).value;
      (library.options.Some? && k in library.options.value.entries && !library.options.value.entries[k].PDict? ==>
         v.PDict? && v.entries[k] == library.options.value.entries[k]) &&
      (options.PDict? && k in options.entries &&
       (target.options.None? || k !in target.options.value.entries) &&
       (sample.options.None? || k !in sample.options.value.entries) &&
       (library.options.None? || k !in library.options.value.entries) ==>
         v.PDict? && k in v.entries && v.entries[k] == options.entries[k])
  {
    var forTarget := Override(options, target.options).value;
    var forSample := Override(forTarget, sample.options).value;
    OverrideMeaning(options, target.options);
    OverrideMeaning(forTarget, sample.options);
    OverrideMeaning(forSample, library.options);
  }

  // ---------------------------------------------------------------------
  // _update_lanes

  /** The keys of a lane of trimmed reads. */
  const ReadTypeKeys: set<string> := {"Single", "Paired", "Collapsed"}

  /** The type of a lane: a path template is raw reads; a dictionary is
      trimmed reads when every key is a read type, and BAM files when every
      key is a prefix. */
  function Classify(data: Value, prefixes: set<string>): (r: Result<LaneType>)
  {
    match data
    case PStr(_) => Ok(Raw)
    case PDict(entries) =>
      if forall key :: key in entries ==> key in ReadTypeKeys then Ok(Trimmed)
      else if forall key :: key in entries ==> key in prefixes then Ok(BAMs)
      else Err(MakefileError)
    case _ => Ok(Untyped)
  }

  /** Each lane type, and the error, in terms of the lane's data. */
  lemma ClassifyMeaning(data: Value, prefixes: set<string>)
    ensures Classify(data, prefixes) == Ok(Raw) <==> data.PStr?
    ensures Classify(data, prefixes) == Ok(Trimmed) <==> data.PDict? && data.entries.Keys <= ReadTypeKeys
    ensures Classify(data, prefixes) == Ok(BAMs) <==>
      data.PDict? && !(data.entries.Keys <= ReadTypeKeys) && data.entries.Keys <= prefixes
    ensures Classify(data, prefixes).Err? <==>
      data.PDict? && (exists k :: k in data.entries && k !in ReadTypeKeys) && (exists k :: k in data.entries && k !in prefixes)
    ensures Classify(data, prefixes).Err? ==> Classify(data, prefixes).error == MakefileError
  {
  }

  function LaneRecord(data: Value, options: Value, prefixes: set<string>): Result<Record>
  {
    var laneType :- Classify(data, prefixes);
    Ok(Record(laneType, data, options, None))
  }

  /** A library's lanes, each replaced by its record; the library's
      `Options` are popped, and are missing only if `_update_options` did not
      run. */
  function LibraryLanes(prefixes: set<string>, library: Library): Result<Lanes>
  {
    if library.options.None? then Err(KeyError)
    else MapResults(library.lanes, (_, data) => LaneRecord(data, library.options.value, prefixes))
  }

  function SampleLanes(prefixes: set<string>, sample: Sample<Library>): Result<Sample<Lanes>>
  {
    var libraries :- MapResults(sample.libraries, (_, library) => LibraryLanes(prefixes, library));
    Ok(Sample(sample.options, libraries))
  }

  function TargetLanes(prefixes: set<string>, target: Target<Library>): Result<Target<Lanes>>
  {
    var samples :- MapResults(target.samples, (_, sample) => SampleLanes(prefixes, sample));
    Ok(Target(target.options, samples))
  }

  /** `_update_lanes`. */
  function UpdateLanes(prefixes: set<string>, targets: map<string, Target<Library>>): Result<map<string, Target<Lanes>>>
  {
    MapResults(targets, (_, target) => TargetLanes(prefixes, target))
  }

  /** `_update_lanes` fails only on a lane `Classify` refuses or a library
      without options. */
  lemma {:induction false} UpdateLanesErrors(prefixes: set<string>, targets: map<string, Target<Library>>)
    ensures var r := UpdateLanes(prefixes, targets);
      r.Err? ==> r.error == MakefileError || r.error == KeyError
  {
    var r := UpdateLanes(prefixes, targets);
    if r.Err? {
      var t :| t in targets && TargetLanes(prefixes, targets[t]) == Err(r.error);
      TargetLanesErrors(prefixes, targets[t]);
    }
  }

  lemma TargetLanesErrors(prefixes: set<string>, target: Target<Library>)
    ensures var r := TargetLanes(prefixes, target);
      r.Err? ==> r.error == MakefileError || r.error == KeyError
  {
    var r := TargetLanes(prefixes, target);
    if r.Err? {
      var s :| s in target.samples && SampleLanes(prefixes, target.samples[s]) == Err(r.error);
      SampleLanesErrors(prefixes, target.samples[s]);
    }
  }

  lemma SampleLanesErrors(prefixes: set<string>, sample: Sample<Library>)
    ensures var r := SampleLanes(prefixes, sample);
      r.Err? ==> r.error == MakefileError || r.error == KeyError
  {
    var r := SampleLanes(prefixes, sample);
    if r.Err? {
      var l :| l in sample.libraries && LibraryLanes(prefixes, sample.libraries[l]) == Err(r.error);
      LibraryLanesErrors(prefixes, sample.libraries[l]);
    }
  }

  lemma LibraryLanesErrors(prefixes: set<string>, library: Library)
    ensures var r := LibraryLanes(prefixes, library);
      r.Err? ==> r.error == MakefileError || r.error == KeyError
  {
    var r := LibraryLanes(prefixes, library);
    if r.Err? && library.options.Some? {
      var b :| b in library.lanes && LaneRecord(library.lanes[b], library.options.value, prefixes) == Err(r.error);
      assert Classify(library.lanes[b], prefixes) == Err(r.error);
    }
  }

  /** After `_update_lanes` every lane is a record holding its data, its
      type and its library's options. */
  lemma {:induction false} UpdateLanesMeaning(prefixes: set<string>, targets: map<string, Target<Library>>,
                                              t: string, s: string, l: string, b: string)
    requires UpdateLanes(prefixes, targets).Ok?
    requires t in targets && s in targets[t].samples && l in targets[t].samples[s].libraries
    ensures var r := UpdateLanes(prefixes, targets).value;
      var library := targets[t].samples[s].libraries[l];
      t in r && s in r[t].samples && l in r[t].samples[s].libraries &&
      library.options.Some? &&
      r[t].samples[s].libraries[l].Keys == library.lanes.Keys &&
      (b in library.lanes ==>
         Classify(library.lanes[b], prefixes).Ok? &&
         r[t].samples[s].libraries[l][b] ==
           Record(Classify(library.lanes[b], prefixes).value, library.lanes[b], library.options.value, None))
  {
    assert TargetLanes(prefixes, targets[t]).Ok?;
    assert SampleLanes(prefixes, targets[t].samples[s]).Ok?;
    LibraryLanesMeaning(prefixes, targets[t].samples[s].libraries[l], b);
  }

  lemma LibraryLanesMeaning(prefixes: set<string>, library: Library, b: string)
    requires LibraryLanes(prefixes, library).Ok?
    ensures var r := LibraryLanes(prefixes, library).value;
      library.options.Some? && r.Keys == library.lanes.Keys &&
      (b in library.lanes ==>
         Classify(library.lanes[b], prefixes).Ok? &&
         r[b] == Record(Classify(library.lanes[b], prefixes).value, library.lanes[b], library.options.value, None))
  {
    if b in library.lanes {
      assert LaneRecord(library.lanes[b], library.options.value, prefixes).Ok?;
    }
  }

  // ---------------------------------------------------------------------
  // _update_tags

  /** `value[key]` on a makefile value. */
  function Lookup(value: Value, key: string): (r: Result<Value>)
    ensures r.Ok? <==> value.PDict? && key in value.entries
    ensures r.Ok? ==> r.value == value.entries[key]
    ensures r.Err? ==> (r.error == TypeError <==> !value.PDict?)
  {
    if !value.PDict? then Err(TypeError)
    else if key !in value.entries then Err(KeyError)
    else Ok(value.entries[key])
  }

  /** The tags of the lane `barcode` of `library` of `sample` of `target`:
      the program is `Options["Aligners"]["Program"]` and the platform
      `Options["Platform"]`. */
  function TagsOf(target: string, sample: string, library: string, barcode: string, record: Record): Result<Tags>
  {
    var aligners :- Lookup(record.options, "Aligners");
    var program :- Lookup(aligners, "Program");
    var platform :- Lookup(record.options, "Platform");
    Ok(Tags(target, library, sample, library, barcode, barcode, program, platform))
  }

  function LibraryTags(target: string, sample: string, library: string, lanes: Lanes): Result<Lanes>
  {
    MapResults(lanes, (barcode, record: Record) =>
      var tags :- TagsOf(target, sample, library, barcode, record);
      Ok(record.(tags := Some(tags))))
  }

  function SampleTags(target: string, sample: string, s: Sample<Lanes>): Result<Sample<Lanes>>
  {
    var libraries :- MapResults(s.libraries, (library, lanes) => LibraryTags(target, sample, library, lanes));
    Ok(s.(libraries := libraries))
  }

  function TargetTags(target: string, t: Target<Lanes>): Result<Target<Lanes>>
  {
    var samples :- MapResults(t.samples, (sample, s) => SampleTags(target, sample, s));
    Ok(t.(samples := samples))
  }

  /** `_update_tags`. */
  function UpdateTags(targets: map<string, Target<Lanes>>): Result<map<string, Target<Lanes>>>
  {
    MapResults(targets, (target, t) => TargetTags(target, t))
  }

  /** The options `_update_tags` reads: a dictionary naming the aligner
      program and the platform. */
  predicate HasTagOptions(options: Value)
  {
    options.PDict? && "Platform" in options.entries &&
    "Aligners" in options.entries && options.entries["Aligners"].PDict? &&
    "Program" in options.entries["Aligners"].entries
  }

  /** `_update_tags` succeeds on a lane iff its options name the program
      and the platform; the tags then name the lane's target and sample, its
      library as both ID and LB, and its barcode as both PU_src and PU_cur. */
  lemma TagsOfMeaning(target: string, sample: string, library: string, barcode: string, record: Record)
    ensures TagsOf(target, sample, library, barcode, record).Ok? <==> HasTagOptions(record.options)
    ensures TagsOf(target, sample, library, barcode, record).Err? ==>
      TagsOf(target, sample, library, barcode, record).error in {KeyError, TypeError}
    ensures HasTagOptions(record.options) ==>
      var tags := TagsOf(target, sample, library, barcode, record).value;
      tags.target == target && tags.sm == sample && tags.id == library && tags.lb == library &&
      tags.puSrc == barcode && tags.puCur == barcode &&
      tags.pg == record.options.entries["Aligners"].entries["Program"] &&
      tags.pl == record.options.entries["Platform"]
  {
  }

  /** `_update_tags` keeps every lane's type, data and options and adds the
      lane's tags. */
  lemma {:induction false} UpdateTagsMeaning(targets: map<string, Target<Lanes>>, t: string, s: string, l: string, b: string)
    requires UpdateTags(targets).Ok?
    requires t in targets && s in targets[t].samples && l in targets[t].samples[s].libraries
    requires b in targets[t].samples[s].libraries[l]
    ensures var r := UpdateTags(targets).value;
      var record := targets[t].samples[s].libraries[l][b];
      t in r && s in r[t].samples && l in r[t].samples[s].libraries && b in r[t].samples[s].libraries[l] &&
      TagsOf(t, s, l, b, record).Ok? &&
      r[t].samples[s].libraries[l][b] == record.(tags := Some(TagsOf(t, s, l, b, record).value))
  {
    assert TargetTags(t, targets[t]).Ok?;
    assert SampleTags(t, s, targets[t].samples[s]).Ok?;
    var lanes := targets[t].samples[s].libraries[l];
    assert LibraryTags(t, s, l, lanes).Ok?;
    var record := lanes[b];
    var step := (barcode, record: Record) =>
      var tags :- TagsOf(t, s, l, barcode, record);
      Ok(record.(tags := Some(tags)));
    assert step(b, record).Ok?;
  }

  // ---------------------------------------------------------------------
  // _split_lanes_by_filenames

  /** `"%03i" % n`. */
  function Pad3(n: nat): (r: string)
    ensures |r| >= 3 && AllDigits(r)
  {
    var digits := NatToString(n);
    if |digits| >= 3 then digits else seq(3 - |digits|, _ => '0') + digits
  }

  lemma {:induction false} AllZeros(zeros: string)
    requires forall i :: 0 <= i < |zeros| ==> zeros[i] == '0'
    ensures AllDigits(zeros) && DigitsValue(zeros) == 0
    decreases |zeros|
  {
    if |zeros| > 0 {
      AllZeros(zeros[..|zeros| - 1]);
    }
  }

  /** Leading zeros do not change the value of a numeral. */
  lemma {:induction false} LeadingZeros(zeros: string, digits: string)
    requires forall i :: 0 <= i < |zeros| ==> zeros[i] == '0'
    requires AllDigits(digits)
    ensures AllDigits(zeros + digits) && DigitsValue(zeros + digits) == DigitsValue(digits)
    decreases |digits|
  {
    var s := zeros + digits;
    AllZeros(zeros);
    assert AllDigits(s) by {
      forall i | 0 <= i < |s|
        ensures IsDigit(s[i])
      {
        if i >= |zeros| {
          assert s[i] == digits[i - |zeros|];
        }
      }
    }
    if |digits| == 0 {
      assert s == zeros;
    } else {
      assert s[..|s| - 1] == zeros + digits[..|digits| - 1];
      LeadingZeros(zeros, digits[..|digits| - 1]);
    }
  }

  /** The padded numeral reads back as the number. */
  lemma Pad3Value(n: nat)
    ensures DigitsValue(Pad3(n)) == n
  {
    DigitsValueOfNatToString(n);
    var digits := NatToString(n);
    if |digits| < 3 {
      LeadingZeros(seq(3 - |digits|, _ => '0'), digits);
    }
  }

  /** The barcode of the `index`-th part of a split lane, `"%s_%03i"`. */
  function SplitName(barcode: string, index: nat): string
  {
    barcode + "_" + Pad3(index)
  }

  /** Different parts of a lane get different barcodes. */
  lemma SplitNameInjective(barcode: string, i: nat, j: nat)
    ensures SplitName(barcode, i) == SplitName(barcode, j) <==> i == j
  {
    if SplitName(barcode, i) == SplitName(barcode, j) {
      var n := |barcode| + 1;
      assert SplitName(barcode, i)[n..] == Pad3(i);
      assert SplitName(barcode, j)[n..] == Pad3(j);
      Pad3Value(i);
      Pad3Value(j);
    }
  }

  /** Whether `SplitLanesByFilenames` asks for the lane to be split: it is
      `True`, or a list naming the lane's barcode. */
  predicate SplitRequested(split: Value, barcode: string)
  {
    PyEq(split, PBool(true)) || (split.PList? && PyIn(PStr(barcode), split.items))
  }

  function StrList(xs: seq<string>): Value
  {
    PList(seq(|xs|, i requires 0 <= i < |xs| => PStr(xs[i])))
  }

  /** The files `collect_files` found for a lane, by read type, as the
      lane's data. */
  function FilesValue(files: map<string, seq<string>>): Value
  {
    PDict(map key | key in files :: StrList(files[key]))
  }

  /** The `i`-th entry of a column of `izip_longest`, `None` past its end. */
  function Cell(column: seq<string>, i: nat): Option<string>
  {
    if i < |column| then Some(column[i]) else None
  }

  function Max(a: nat, b: nat): nat
  {
    if a < b then b else a
  }

  /** The part of a split lane made from one row of files: the template
      with one file per read type, and its new barcode as PU_cur. */
  function Part(barcode: string, template: Record, keys: seq<string>, first: string, last: string, index: nat): Result<(string, Record)>
    requires |keys| == 1 || |keys| == 2
  {
    if template.tags.None? then Err(KeyError)
    else
      var name := SplitName(barcode, index);
      var data := if |keys| == 1 then map[keys[0] := StrList([first])]
                  else map[keys[0] := StrList([first]), keys[1] := StrList([last])];
      Ok((name, template.(data := PDict(data), tags := Some(template.tags.value.(puCur := name)))))
  }

  /** The parts made from row `i` on. A row with a missing file, or whose
      first and last names differ in length, fails the `assert`s of the
      loop. */
  function PartsFrom(barcode: string, template: Record, keys: seq<string>, firsts: seq<string>, lasts: seq<string>, i: nat)
    : Result<seq<(string, Record)>>
    requires |keys| == 1 || |keys| == 2
    decreases Max(|firsts|, |lasts|) - i
  {
    if i >= Max(|firsts|, |lasts|) then Ok([])
    else
      var first := Cell(firsts, i);
      var last := Cell(lasts, i);
      if first.None? || last.None? then Err(TypeError)
      else if |first.value| != |last.value| then Err(AssertionError)
      else
        var part :- Part(barcode, template, keys, first.value, last.value, i + 1);
        var rest :- PartsFrom(barcode, template, keys, firsts, lasts, i + 1);
        Ok([part] + rest)
  }

  /** The parts of a split lane from row `i` on: one per row, named by the
      row's number from 1, each with PU_cur set to its name and otherwise
      the template's tags, type and options. */
  lemma {:induction false} PartsFromMeaning(barcode: string, template: Record, keys: seq<string>,
                                            firsts: seq<string>, lasts: seq<string>, i: nat)
    requires |keys| == 1 || |keys| == 2
    ensures var r := PartsFrom(barcode, template, keys, firsts, lasts, i);
      r.Ok? && i < Max(|firsts|, |lasts|) ==> template.tags.Some?
    ensures var r := PartsFrom(barcode, template, keys, firsts, lasts, i);
      r.Ok? ==> |r.value| == Max(|firsts|, |lasts|) - i || (i >= Max(|firsts|, |lasts|) && r.value == [])
    ensures var r := PartsFrom(barcode, template, keys, firsts, lasts, i);
      r.Ok? ==> forall j :: 0 <= j < |r.value| ==>
        r.value[j].0 == SplitName(barcode, i + j + 1) &&
        r.value[j].1.laneType == template.laneType && r.value[j].1.options == template.options &&
        r.value[j].1.tags == Some(template.tags.value.(puCur := r.value[j].0))
    ensures var r := PartsFrom(barcode, template, keys, firsts, lasts, i);
      r.Err? ==> r.error in {TypeError, AssertionError, KeyError}
    decreases Max(|firsts|, |lasts|) - i
  {
    if i < Max(|firsts|, |lasts|) {
      PartsFromMeaning(barcode, template, keys, firsts, lasts, i + 1);
      var r := PartsFrom(barcode, template, keys, firsts, lasts, i);
      if r.Ok? {
        var rest := PartsFrom(barcode, template, keys, firsts, lasts, i + 1).value;
        forall j | 0 < j < |r.value|
          ensures r.value[j] == rest[j - 1]
        {
        }
      }
    }
  }

  /** The parts of a split lane have distinct barcodes. */
  lemma PartsDistinct(barcode: string, template: Record, keys: seq<string>, firsts: seq<string>, lasts: seq<string>)
    requires |keys| == 1 || |keys| == 2
    requires PartsFrom(barcode, template, keys, firsts, lasts, 0).Ok?
    ensures var parts := PartsFrom(barcode, template, keys, firsts, lasts, 0).value;
      forall j, k :: 0 <= j < k < |parts| ==> parts[j].0 != parts[k].0
  {
    PartsFromMeaning(barcode, template, keys, firsts, lasts, 0);
    var parts := PartsFrom(barcode, template, keys, firsts, lasts, 0).value;
    forall j, k | 0 <= j < k < |parts|
      ensures parts[j].0 != parts[k].0
    {
      SplitNameInjective(barcode, j + 1, k + 1);
    }
  }

  /** The loop of `_split_lanes_by_filenames` over the rows of
      `izip_longest`, numbered from 1 by `enumerate`. */
  method SplitParts(barcode: string, template: Record, keys: seq<string>, firsts: seq<string>, lasts: seq<string>)
    returns (r: Result<seq<(string, Record)>>)
    requires |keys| == 1 || |keys| == 2
    ensures r == PartsFrom(barcode, template, keys, firsts, lasts, 0)
  {
    var rows := Max(|firsts|, |lasts|);
    var parts: seq<(string, Record)> := [];
    PrependPrepend([], [], PartsFrom(barcode, template, keys, firsts, lasts, 0));
    for i := 0 to rows
      invariant PartsFrom(barcode, template, keys, firsts, lasts, 0) == Prepend(parts, PartsFrom(barcode, template, keys, firsts, lasts, i))
    {
      var first := Cell(firsts, i);
      var last := Cell(lasts, i);
      if first.None? || last.None? {
        return Err(TypeError);
      }
      if |first.value| != |last.value| {
        return Err(AssertionError);
      }
      var part := Part(barcode, template, keys, first.value, last.value, i + 1);
      if part.Err? {
        return Err(part.error);
      }
      PrependPrepend(parts, [part.value], PartsFrom(barcode, template, keys, firsts, lasts, i + 1));
      parts := parts + [part.value];
    }
    assert parts + [] == parts;
    return Ok(parts);
  }

  /** `done` followed by the parts still to make. */
  function Prepend<T>(done: seq<T>, r: Result<seq<T>>): Result<seq<T>>
  {
    if r.Err? then r else Ok(done + r.value)
  }

  lemma PrependPrepend<T>(a: seq<T>, b: seq<T>, r: Result<seq<T>>)
    ensures Prepend(a, if r.Err? then r else Ok(b + r.value)) == Prepend(a + b, r)
    ensures b == [] ==> Prepend(b, r) == r
  {
    if r.Ok? {
      assert a + (b + r.value) == a + b + r.value;
      assert [] + r.value == r.value;
    }
  }

  /** The read types a lane is split by: single-end files, or the two mates. */
  function SplitKeys(files: map<string, seq<string>>): (keys: seq<string>)
    ensures |keys| == 1 || |keys| == 2
  {
    if "SE" in files then ["SE"] else ["PE_1", "PE_2"]
  }

  /** `_split_lanes_by_filenames` for the lane `barcode` of a library: the
      lanes that replace it. `files` is what `collect_files` found for its
      path template. A raw lane takes those files as its data; it is split
      when asked to and some read type has several files, and it is an
      error to ask for a split while a file is missing. */
  function SplitLane(fs: FileUtils.FsView, barcode: string, record: Record, files: map<string, seq<string>>)
    : Result<seq<(string, Record)>>
  {
    if record.laneType != Raw then Ok([(barcode, record)])
    else
      var collected := record.(data := FilesValue(files));
      var split :- Lookup(record.options, "SplitLanesByFilenames");
      if !SplitRequested(split, barcode) then Ok([(barcode, collected)])
      else if exists key :: key in files && FileUtils.MissingFiles(fs, set f | f in files[key]) != {} then Err(MakefileError)
      else if forall key :: key in files ==> |files[key]| <= 1 then Ok([(barcode, collected)])
      else
        var keys := SplitKeys(files);
        if exists j :: 0 <= j < |keys| && keys[j] !in files then Err(KeyError)
        else PartsFrom(barcode, collected, keys, files[keys[0]], files[keys[|keys| - 1]], 0)
  }

  /** A lane that is split becomes parts with distinct barcodes "<barcode>_001",
      "<barcode>_002", ..., one per row of files, each with PU_cur set to its
      barcode; a lane that is not split keeps its barcode. */
  lemma SplitLaneMeaning(fs: FileUtils.FsView, barcode: string, record: Record, files: map<string, seq<string>>)
    requires SplitLane(fs, barcode, record, files).Ok?
    ensures var parts := SplitLane(fs, barcode, record, files).value;
      var keys := SplitKeys(files);
      (|parts| == 1 && parts[0].0 == barcode) ||
      (record.laneType == Raw && keys[0] in files && keys[|keys| - 1] in files &&
       |parts| == Max(|files[keys[0]]|, |files[keys[|keys| - 1]]|) &&
       (forall j :: 0 <= j < |parts| ==>
          record.tags.Some? && parts[j].0 == SplitName(barcode, j + 1) &&
          parts[j].1.tags == Some(record.tags.value.(puCur := parts[j].0))) &&
       (forall j, k :: 0 <= j < k < |parts| ==> parts[j].0 != parts[k].0))
  {
    if record.laneType == Raw {
      var collected := record.(data := FilesValue(files));
      var keys := SplitKeys(files);
      if keys[0] in files && keys[|keys| - 1] in files {
        var firsts := files[keys[0]];
        var lasts := files[keys[|keys| - 1]];
        PartsFromMeaning(barcode, collected, keys, firsts, lasts, 0);
        if PartsFrom(barcode, collected, keys, firsts, lasts, 0).Ok? {
          PartsDistinct(barcode, collected, keys, firsts, lasts);
        }
      }
    }
  }

  // ---------------------------------------------------------------------
  // _validate_makefile_libraries

  /** The (target, sample, library, barcode) of every lane, as
      `_iterate_over_records` yields them. */
  function Records(targets: map<string, Target<Lanes>>): set<(string, string, string, string)>
  {
    set t, s, l, b | t in targets && s in targets[t].samples && l in targets[t].samples[s].libraries &&
                     b in targets[t].samples[s].libraries[l] :: (t, s, l, b)
  }

  /** Some library of a target has lanes in two different samples. */
  predicate SpansSamples(targets: map<string, Target<Lanes>>)
  {
    SpansIn(Records(targets))
  }

  predicate SpansIn(records: set<(string, string, string, string)>)
  {
    exists x, y :: x in records && y in records && x.0 == y.0 && x.2 == y.2 && x.1 != y.1
  }

  /** The (target, library) pairs of `records`. */
  function LibraryKeys(records: set<(string, string, string, string)>): set<(string, string)>
  {
    set x | x in records :: (x.0, x.2)
  }

  /** The samples of the lanes of library `key` in `records`. */
  function SamplesIn(records: set<(string, string, string, string)>, key: (string, string)): set<string>
  {
    set x | x in records && x.0 == key.0 && x.2 == key.1 :: x.1
  }

  /** The samples of the lanes in `records`, by target and library: the
      `defaultdict(set)` of `_validate_makefile_libraries`. */
  function SamplesOf(records: set<(string, string, string, string)>): map<(string, string), set<string>>
  {
    map key | key in LibraryKeys(records) :: SamplesIn(records, key)
  }

  /** One turn of the first loop of `_validate_makefile_libraries`. */
  lemma SamplesOfAdd(done: set<(string, string, string, string)>, x: (string, string, string, string))
    ensures var before := SamplesOf(done);
      var key := (x.0, x.2);
      SamplesOf(done + {x}) == before[key := (if key in before then before[key] else {}) + {x.1}]
  {
    var before := SamplesOf(done);
    var key := (x.0, x.2);
    var after := SamplesOf(done + {x});
    var expected := before[key := (if key in before then before[key] else {}) + {x.1}];
    assert LibraryKeys(done + {x}) == LibraryKeys(done) + {key};
    forall k | k in after
      ensures after[k] == expected[k]
    {
      if k == key {
        assert SamplesIn(done + {x}, k) == SamplesIn(done, k) + {x.1};
        if key !in before {
          assert SamplesIn(done, k) == {};
        }
      } else {
        assert SamplesIn(done + {x}, k) == SamplesIn(done, k);
      }
    }
  }

  /** A set with more than one element has two different elements. */
  lemma TwoElements<T>(xs: set<T>)
    ensures |xs| > 1 <==> exists a, b :: a in xs && b in xs && a != b
  {
    if |xs| > 1 {
      var a :| a in xs;
      assert |xs - {a}| > 0;
      var b :| b in xs - {a};
    }
    if exists a, b :: a in xs && b in xs && a != b {
      var a, b :| a in xs && b in xs && a != b;
      assert b in xs - {a};
      assert |xs - {a}| == |xs| - 1;
    }
  }

  /** The first loop of `_validate_makefile_libraries`: the samples of
      every library, gathered over its lanes. */
  method CollectSamples(records: set<(string, string, string, string)>) returns (libraries: map<(string, string), set<string>>)
    ensures libraries == SamplesOf(records)
  {
    libraries := map[];
    var pending := records;
    ghost var done: set<(string, string, string, string)> := {};
    assert SamplesOf(done) == map[];
    while pending != {}
      invariant done + pending == records && done !! pending
      invariant libraries == SamplesOf(done)
      decreases |pending|
    {
      var x :| x in pending;
      var key := (x.0, x.2);
      SamplesOfAdd(done, x);
      libraries := libraries[key := (if key in libraries then libraries[key] else {}) + {x.1}];
      done := done + {x};
      pending := pending - {x};
    }
  }

  /** The second loop of `_validate_makefile_libraries`: whether some
      library has more than one sample. */
  method AnySpanning(libraries: map<(string, string), set<string>>) returns (found: bool)
    ensures found <==> exists k :: k in libraries && |libraries[k]| > 1
  {
    var keys := libraries.Keys;
    while keys != {}
      invariant keys <= libraries.Keys
      invariant forall k :: k in libraries && k !in keys ==> |libraries[k]| <= 1
      decreases |keys|
    {
      var key :| key in keys;
      if |libraries[key]| > 1 {
        return true;
      }
      keys := keys - {key};
    }
    return false;
  }

  /** `_validate_makefile_libraries`: a library spanning more than one
      sample within a target is an error. */
  method ValidateLibraries(targets: map<string, Target<Lanes>>) returns (r: Outcome)
    ensures r.Fail? <==> SpansSamples(targets)
    ensures r.Fail? ==> r.error == MakefileError
  {
    var records := Records(targets);
    var libraries := CollectSamples(records);
    var spanning := AnySpanning(libraries);
    SpansSamplesOf(records);
    r := if spanning then Fail(MakefileError) else Pass;
  }

  /** A library spans samples iff it has more than one sample in `SamplesOf`. */
  lemma SpansSamplesOf(records: set<(string, string, string, string)>)
    ensures var samples := SamplesOf(records);
      SpansIn(records) <==> exists k :: k in samples && |samples[k]| > 1
  {
    var samples := SamplesOf(records);
    if SpansIn(records) {
      var x, y :| x in records && y in records && x.0 == y.0 && x.2 == y.2 && x.1 != y.1;
      var k := (x.0, x.2);
      assert k in LibraryKeys(records);
      assert x.1 in SamplesIn(records, k) && y.1 in SamplesIn(records, k);
      TwoElements(samples[k]);
    }
    if exists k :: k in samples && |samples[k]| > 1 {
      var k :| k in samples && |samples[k]| > 1;
      TwoElements(samples[k]);
      var a, b :| a in samples[k] && b in samples[k] && a != b;
      assert a in SamplesIn(records, k) && b in SamplesIn(records, k);
      var x :| x in records && x.0 == k.0 && x.2 == k.1 && x.1 == a;
      var y :| y in records && y.0 == k.0 && y.2 == k.1 && y.1 == b;
    }
  }

  // ---------------------------------------------------------------------
  // _validate_makefiles_duplicate_targets

  /** The targets of the first `n` makefiles. */
  function TargetsBefore(makefiles: seq<map<string, Target<Lanes>>>, n: nat): set<string>
    requires n <= |makefiles|
  {
    set j, t | 0 <= j < n && t in makefiles[j] :: t
  }

  /** Some target is named by two makefiles. */
  predicate RepeatsTarget(makefiles: seq<map<string, Target<Lanes>>>)
  {
    exists i, j, t :: 0 <= i < j < |makefiles| && t in makefiles[i] && t in makefiles[j]
  }

  /** The loop over one makefile's targets: it fails on a target seen
      before, and otherwise adds them all. */
  method AddTargets(seen: set<string>, targets: set<string>) returns (r: Outcome, added: set<string>)
    ensures r.Fail? <==> seen * targets != {}
    ensures r.Fail? ==> r.error == MakefileError
    ensures r.Pass? ==> added == seen + targets
  {
    added := seen;
    var pending := targets;
    while pending != {}
      invariant pending <= targets
      invariant added == seen + (targets - pending)
      invariant seen * (targets - pending) == {}
      decreases |pending|
    {
      var t :| t in pending;
      if t in added {
        assert t in seen * targets;
        return Fail(MakefileError), added;
      }
      added := added + {t};
      pending := pending - {t};
    }
    return Pass, added;
  }

  /** `_validate_makefiles_duplicate_targets`: a target named by two
      makefiles is an error. */
  method ValidateDuplicateTargets(makefiles: seq<map<string, Target<Lanes>>>) returns (r: Outcome)
    ensures r.Fail? <==> RepeatsTarget(makefiles)
    ensures r.Fail? ==> r.error == MakefileError
  {
    var seen: set<string> := {};
    for i := 0 to |makefiles|
      invariant seen == TargetsBefore(makefiles, i)
      invariant !RepeatsTarget(makefiles[..i])
    {
      var outcome, added := AddTargets(seen, makefiles[i].Keys);
      RepeatsTargetSnoc(makefiles, i);
      if outcome.Fail? {
        return outcome;
      }
      seen := added;
    }
    assert makefiles[..|makefiles|] == makefiles;
    return Pass;
  }

  /** Adding the `i`-th makefile repeats a target iff it names one of the
      targets before it. */
  lemma RepeatsTargetSnoc(makefiles: seq<map<string, Target<Lanes>>>, i: nat)
    requires i < |makefiles|
    ensures RepeatsTarget(makefiles[..i + 1]) <==>
      RepeatsTarget(makefiles[..i]) || TargetsBefore(makefiles, i) * makefiles[i].Keys != {}
    ensures TargetsBefore(makefiles, i + 1) == TargetsBefore(makefiles, i) + makefiles[i].Keys
  {
    TargetsBeforeSnoc(makefiles, i);
    var before := makefiles[..i];
    var after := makefiles[..i + 1];
    if RepeatsTarget(after) {
      var a, b, t :| 0 <= a < b < |after| && t in after[a] && t in after[b];
      if b < i {
        assert t in before[a] && t in before[b];
      } else {
        assert after[a] == makefiles[a] && after[b] == makefiles[i];
        assert t in TargetsBefore(makefiles, i) * makefiles[i].Keys;
      }
    }
    if TargetsBefore(makefiles, i) * makefiles[i].Keys != {} {
      var t :| t in TargetsBefore(makefiles, i) * makefiles[i].Keys;
      var a :| 0 <= a < i && t in makefiles[a];
      assert t in after[a] && t in after[i];
    }
    if RepeatsTarget(before) {
      var a, b, t :| 0 <= a < b < |before| && t in before[a] && t in before[b];
      assert t in after[a] && t in after[b];
    }
  }

  lemma TargetsBeforeSnoc(makefiles: seq<map<string, Target<Lanes>>>, i: nat)
    requires i < |makefiles|
    ensures TargetsBefore(makefiles, i + 1) == TargetsBefore(makefiles, i) + makefiles[i].Keys
  {
    forall t | t in TargetsBefore(makefiles, i + 1)
      ensures t in TargetsBefore(makefiles, i) + makefiles[i].Keys
    {
      var a :| 0 <= a < i + 1 && t in makefiles[a];
      if a < i {
        assert t in TargetsBefore(makefiles, i);
      }
    }
  }
}
