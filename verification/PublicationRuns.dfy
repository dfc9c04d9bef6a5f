/** Publications interrupted anywhere: what survives, what a re-run ends with, and what a reader may see. */
module PublicationRuns {
  import opened Text
  import opened Sorting
  import opened Values
  import opened Json
  import opened Projection
  import opened Transport
  import opened TransportReader
  import opened Publication

  // ------------------------------------------------------------------ the state after k steps

  function Target(step: Step): string {
    step.name
  }

  predicate Took(dir: Files, step: Step) {
    match step
    case Write(name, content) => name in dir && dir[name] == content
    case Unlink(name) => name !in dir
  }

  predicate SameAt(dir: Files, d: Files, name: string) {
    (name in dir <==> name in d) && (name in dir ==> dir[name] == d[name])
  }

  function Done(dir: Files, steps: seq<Step>, k: nat): Files
    requires k <= |steps|
  {
    if k == 0 then dir else Do(Done(dir, steps, k - 1), steps[k - 1])
  }

  ghost predicate DistinctTargets(steps: seq<Step>) {
    forall i, j :: 0 <= i < j < |steps| ==> Target(steps[i]) != Target(steps[j])
  }

  lemma {:induction false} DoneAt(dir: Files, steps: seq<Step>, k: nat, name: string)
    requires k <= |steps| && DistinctTargets(steps)
    ensures (forall i :: 0 <= i < k ==> Target(steps[i]) != name) ==> SameAt(dir, Done(dir, steps, k), name)
    ensures forall i :: 0 <= i < k && Target(steps[i]) == name ==> Took(Done(dir, steps, k), steps[i])
    decreases k
  {
    if k > 0 { DoneAt(dir, steps, k - 1, name); }
  }

  lemma {:induction false} DoneShifts(dir: Files, steps: seq<Step>, k: nat)
    requires k < |steps|
    ensures Done(dir, steps, k + 1) == Done(Do(dir, steps[0]), steps[1..], k)
    decreases k
  {
    if k > 0 { DoneShifts(dir, steps, k - 1); }
  }

  /** A run stops between two steps or inside one. */
  lemma {:induction false} RunStops(dir: Files, steps: seq<Step>, stop: Stop) returns (k: nat, torn: Option<nat>)
    ensures k <= |steps| && (torn.Some? ==> k < |steps|)
    ensures Run(dir, steps, stop) == if torn.None? then Done(dir, steps, k) else Torn(Done(dir, steps, k), steps[k], torn.value)
    ensures stop == Never ==> k == |steps| && torn.None?
    decreases |steps|
  {
    hide Do, Torn;
    if steps == [] || stop == Before(0) {
      return 0, None;
    }
    if stop.Inside? && stop.step == 0 {
      return 0, Some(stop.kept);
    }
    var later := match stop case Never => Never case Before(n) => Before(n - 1) case Inside(n, kept) => Inside(n - 1, kept);
    k, torn := RunStops(Do(dir, steps[0]), steps[1..], later);
    DoneShifts(dir, steps, k);
    k := k + 1;
  }

  lemma Differ(names: seq<string>)
    requires Increasing((a: string, b: string) => Less(CodePoints(a), CodePoints(b)), names)
    ensures forall i, j :: 0 <= i < j < |names| ==> names[i] != names[j]
  {
    hide Less;
    forall i, j | 0 <= i < j < |names|
      ensures names[i] != names[j]
    {
      assert Less(CodePoints(names[i]), CodePoints(names[j]));
      LessAsymmetric(CodePoints(names[i]), CodePoints(names[j]));
    }
  }

  /** Every file is the target of at most one step, and the manifest of the last. */
  lemma StepsAre(outputs: Files, retired: set<string>)
    requires MANIFEST_FILE in outputs && retired !! outputs.Keys
    ensures var steps := Steps(outputs, retired);
      && DistinctTargets(steps) && steps != []
      && steps[|steps| - 1] == Write(MANIFEST_FILE, outputs[MANIFEST_FILE])
      && (forall s :: s in steps ==> if s.Write? then s.name in outputs && s.content == outputs[s.name] else s.name in retired)
      && (forall name :: name in outputs ==> Write(name, outputs[name]) in steps)
      && (forall name :: name in retired ==> Unlink(name) in steps)
  {
    hide InOrder, Less;
    var names, gone := InOrder(outputs.Keys - {MANIFEST_FILE}), InOrder(retired);
    var a, b := Writes(outputs, names), Unlinks(gone);
    Differ(names);
    Differ(gone);
    forall name | name in outputs
      ensures Write(name, outputs[name]) in Steps(outputs, retired)
    {
      if name != MANIFEST_FILE {
        assert name in names;
        var k :| 0 <= k < |names| && names[k] == name;
        assert a[k] in a;
      }
    }
    forall name | name in retired
      ensures Unlink(name) in Steps(outputs, retired)
    {
      var k :| 0 <= k < |gone| && gone[k] == name;
      assert b[k] in b;
    }
    StepsDiffer(outputs, retired, names, gone);
  }

  lemma StepsDiffer(outputs: Files, retired: set<string>, names: seq<string>, gone: seq<string>)
    requires MANIFEST_FILE in outputs && retired !! outputs.Keys
    requires forall x :: x in names <==> x in outputs.Keys - {MANIFEST_FILE}
    requires forall x :: x in gone <==> x in retired
    requires forall i, j :: 0 <= i < j < |names| ==> names[i] != names[j]
    requires forall i, j :: 0 <= i < j < |gone| ==> gone[i] != gone[j]
    ensures DistinctTargets(Writes(outputs, names) + Unlinks(gone) + [Write(MANIFEST_FILE, outputs[MANIFEST_FILE])])
  {
    var a, b, c := Writes(outputs, names), Unlinks(gone), [Write(MANIFEST_FILE, outputs[MANIFEST_FILE])];
    var all := a + b + c;
    assert forall i :: 0 <= i < |a| ==> Target(all[i]) == names[i] && names[i] in names;
    assert forall i :: |a| <= i < |a| + |b| ==> Target(all[i]) == gone[i - |a|] && gone[i - |a|] in gone;
  }

  // ------------------------------------------------------------------ where a run can stop

  /** The manifest is touched only when everything else is in place. */
  ghost predicate Prepared(outputs: Files, retired: set<string>, d: Files) {
    && (forall name :: name in outputs && name != MANIFEST_FILE ==> name in d && d[name] == outputs[name])
    && (forall name :: name in retired ==> name !in d)
  }

  ghost predicate IsPartly(d: Files, name: string, content: Bytes) {
    name in d && d[name] <= content
  }

  ghost predicate Reached(dir: Files, outputs: Files, retired: set<string>, d: Files) {
    && (forall name :: name !in outputs && name !in retired ==> SameAt(dir, d, name))
    && (forall name :: name in retired ==> name !in d || SameAt(dir, d, name))
    && (forall name :: name in outputs ==> SameAt(dir, d, name) || IsPartly(d, name, outputs[name]))
    && (MANIFEST_FILE in outputs ==> SameAt(dir, d, MANIFEST_FILE) || Prepared(outputs, retired, d))
  }

  lemma StoppedBetween(dir: Files, outputs: Files, retired: set<string>, k: nat)
    requires MANIFEST_FILE in outputs && retired !! outputs.Keys && k <= |Steps(outputs, retired)|
    ensures Reached(dir, outputs, retired, Done(dir, Steps(outputs, retired), k))
    ensures k == |Steps(outputs, retired)| ==>
      Took(Done(dir, Steps(outputs, retired), k), Write(MANIFEST_FILE, outputs[MANIFEST_FILE]))
    ensures k >= |Steps(outputs, retired)| - 1 ==> Prepared(outputs, retired, Done(dir, Steps(outputs, retired), k))
    ensures k < |Steps(outputs, retired)| ==> SameAt(dir, Done(dir, Steps(outputs, retired), k), MANIFEST_FILE)
  {
    hide Steps, Done;
    var steps := Steps(outputs, retired);
    var d := Done(dir, steps, k);
    StepsAre(outputs, retired);
    forall name
      ensures name !in outputs && name !in retired ==> SameAt(dir, d, name)
      ensures name in retired ==> name !in d || SameAt(dir, d, name)
      ensures name in outputs ==> SameAt(dir, d, name) || (name in d && d[name] == outputs[name])
      ensures name in outputs && k >= |steps| - 1 && name != MANIFEST_FILE ==> name in d && d[name] == outputs[name]
      ensures name in retired && k >= |steps| - 1 ==> name !in d
    {
      DoneAt(dir, steps, k, name);
      NameStep(outputs, retired, name);
    }
    DoneAt(dir, steps, k, MANIFEST_FILE);
    if k < |steps| {
      assert forall i :: 0 <= i < k ==> Target(steps[i]) != Target(steps[|steps| - 1]);
    }
  }

  /** The step that treats a file, if there is one. */
  lemma NameStep(outputs: Files, retired: set<string>, name: string)
    requires MANIFEST_FILE in outputs && retired !! outputs.Keys
    ensures var steps := Steps(outputs, retired);
      && (name in outputs ==> exists i :: 0 <= i < |steps| && steps[i] == Write(name, outputs[name]) && (name != MANIFEST_FILE ==> i < |steps| - 1))
      && (name in retired ==> exists i :: 0 <= i < |steps| - 1 && steps[i] == Unlink(name))
      && (forall i :: 0 <= i < |steps| && Target(steps[i]) == name ==>
            if name in outputs then steps[i] == Write(name, outputs[name]) else name in retired && steps[i] == Unlink(name))
  {
    hide Steps;
    StepsAre(outputs, retired);
    var steps := Steps(outputs, retired);
    forall i | 0 <= i < |steps|
      ensures steps[i] in steps
    {
    }
    if name in outputs {
      var i :| 0 <= i < |steps| && steps[i] == Write(name, outputs[name]);
      assert name != MANIFEST_FILE ==> i != |steps| - 1;
    }
    if name in retired {
      var i :| 0 <= i < |steps| && steps[i] == Unlink(name);
      assert i != |steps| - 1;
    }
  }

  lemma TornReaches(dir: Files, outputs: Files, retired: set<string>, d: Files, step: Step, kept: nat, early: bool)
    requires MANIFEST_FILE in outputs && retired !! outputs.Keys
    requires Reached(dir, outputs, retired, d) && SameAt(dir, d, MANIFEST_FILE) && (early || Prepared(outputs, retired, d))
    requires if step.Write? then step.name in outputs && step.content == outputs[step.name] else step.name in retired
    requires early <==> step.name != MANIFEST_FILE
    ensures Reached(dir, outputs, retired, Torn(d, step, kept))
  {
    if step.Write? {
      var cut: nat := if kept < |step.content| then kept else |step.content|;
      assert step.content[..cut] <= step.content;
      assert IsPartly(Torn(d, step, kept), step.name, step.content);
    }
  }

  lemma StoppedInside(dir: Files, outputs: Files, retired: set<string>, k: nat, kept: nat)
    requires MANIFEST_FILE in outputs && retired !! outputs.Keys && k < |Steps(outputs, retired)|
    ensures Reached(dir, outputs, retired, Torn(Done(dir, Steps(outputs, retired), k), Steps(outputs, retired)[k], kept))
  {
    hide Steps, Done;
    var steps := Steps(outputs, retired);
    var d := Done(dir, steps, k);
    StepsAre(outputs, retired);
    StoppedBetween(dir, outputs, retired, k);
    assert Target(steps[|steps| - 1]) == MANIFEST_FILE;
    assert k < |steps| - 1 ==> Target(steps[k]) != Target(steps[|steps| - 1]);
    assert steps[k] in steps;
    TornReaches(dir, outputs, retired, d, steps[k], kept, k < |steps| - 1);
  }

  /**
    Wherever a run stops, files it does not own are as they were, a retired part is whole or gone, an
    output is as it was or a prefix of what is written, and the manifest is still the old one unless
    everything else is in place.
   */
  lemma EveryRunReaches(sha: Hash, loads: Loads, dir: Files, outputs: Files, stop: Stop)
    requires MANIFEST_FILE in outputs && Authorise(sha, loads, dir, outputs).Some?
    ensures Reached(dir, outputs, Authorise(sha, loads, dir, outputs).value, Publish(sha, loads, dir, outputs, stop))
    ensures stop == Never ==>
      var retired, d := Authorise(sha, loads, dir, outputs).value, Publish(sha, loads, dir, outputs, stop);
      Prepared(outputs, retired, d) && MANIFEST_FILE in d && d[MANIFEST_FILE] == outputs[MANIFEST_FILE]
  {
    RetiredAreNotOutputs(sha, loads, dir, outputs);
    hide Steps, Done, Authorise, Run, Reached;
    var retired := Authorise(sha, loads, dir, outputs).value;
    var k, torn := RunStops(dir, Steps(outputs, retired), stop);
    StoppedBetween(dir, outputs, retired, k);
    if torn.Some? { StoppedInside(dir, outputs, retired, k, torn.value); }
  }

  lemma RetiredAreNotOutputs(sha: Hash, loads: Loads, dir: Files, outputs: Files)
    requires Authorise(sha, loads, dir, outputs).Some?
    ensures Authorise(sha, loads, dir, outputs).value !! outputs.Keys
  {}

  /** A complete run leaves the outputs and whatever it neither wrote nor retired. */
  lemma CompleteRunIs(sha: Hash, loads: Loads, dir: Files, outputs: Files)
    requires MANIFEST_FILE in outputs && Authorise(sha, loads, dir, outputs).Some?
    ensures var retired := Authorise(sha, loads, dir, outputs).value;
      Publish(sha, loads, dir, outputs, Never) == (dir - retired) + outputs
    ensures Publish(sha, loads, dir, outputs, Never) == outputs
      <==> forall name :: name in dir ==> name in outputs || name in Authorise(sha, loads, dir, outputs).value
  {
    hide Publish, Authorise;
    EveryRunReaches(sha, loads, dir, outputs, Never);
    var retired, d := Authorise(sha, loads, dir, outputs).value, Publish(sha, loads, dir, outputs, Never);
    RetiredAreNotOutputs(sha, loads, dir, outputs);
    var expected := (dir - retired) + outputs;
    forall name
      ensures SameAt(d, expected, name)
    {
    }
    assert d.Keys == expected.Keys;
    if exists name :: name in dir && name !in outputs && name !in retired {
      var name :| name in dir && name !in outputs && name !in retired;
      assert name in expected;
    } else {
      assert expected.Keys == outputs.Keys;
    }
  }

  /** The hash an admitted manifest records for a part file. */
  ghost predicate IsVouchedFor(sha: Hash, loads: Loads, dir: Files, name: string) {
    MANIFEST_FILE in dir && loads(dir[MANIFEST_FILE]).Some? && name in dir &&
    match AdmitManifest(dir[MANIFEST_FILE], loads(dir[MANIFEST_FILE]).value)
    case None => false
    case Some(m) => exists d :: d in m.parts && d.file == name && |dir[name]| == d.bytes && sha(dir[name]) == d.sha
  }

  /**
    A publication changes only files it writes; it removes a file only if the admitted manifest it
    finds records exactly these bytes under that name; and one file it does not know makes it change nothing.
   */
  lemma OnlyVouchedFilesGo(sha: Hash, loads: Loads, dir: Files, outputs: Files, stop: Stop, name: string)
    requires MANIFEST_FILE in outputs && name in dir
    ensures var d := Publish(sha, loads, dir, outputs, stop);
      && (name in d && d[name] != dir[name] ==> name in outputs)
      && (name !in d ==> IsVouchedFor(sha, loads, dir, name))
    ensures ReadPrevious(loads, dir).Some? && name != MANIFEST_FILE && !IsKnown(ReadPrevious(loads, dir).value, outputs, name) ==>
      Publish(sha, loads, dir, outputs, stop) == dir
  {
    hide AdmitManifest, PreviousViews, IsViewFile, Run, Steps;
    if Authorise(sha, loads, dir, outputs).Some? {
      var retired := Authorise(sha, loads, dir, outputs).value;
      EveryRunReaches(sha, loads, dir, outputs, stop);
      if name in retired { RetiredIsVouchedFor(sha, loads, dir, outputs, name); }
    }
  }

  lemma RetiredIsVouchedFor(sha: Hash, loads: Loads, dir: Files, outputs: Files, name: string)
    requires Authorise(sha, loads, dir, outputs).Some? && name in dir && name in Authorise(sha, loads, dir, outputs).value
    ensures IsVouchedFor(sha, loads, dir, name)
  {
    hide AdmitManifest, PreviousViews, IsViewFile;
    var previous := ReadPrevious(loads, dir).value;
    var d :| d in previous.parts && d.file !in outputs && d.file == name;
    assert IsProven(sha, loads, dir, d);
  }

  // ------------------------------------------------------------------ the single-file index

  lemma PreviousViewsAre(fields: seq<Entry>, view: string)
    requires PreviousViews(fields).Some?
    ensures view in PreviousViews(fields).value <==> IsView(fields, view)
  {
    hide Lookup, IsViewName;
  }

  lemma ViewFilesAre(fields: seq<Entry>, name: string)
    requires PreviousViews(fields).Some?
    ensures IsViewFile(PreviousViews(fields).value, name) <==> exists view :: name == view + ".mmd" && IsView(fields, view)
  {
    hide PreviousViews, IsView;
    var views := PreviousViews(fields).value;
    if IsViewFile(views, name) {
      var view :| view in views && name == view + ".mmd";
      PreviousViewsAre(fields, view);
    }
    if exists view :: name == view + ".mmd" && IsView(fields, view) {
      var view :| name == view + ".mmd" && IsView(fields, view);
      PreviousViewsAre(fields, view);
    }
  }

  /**
    An index of the version before it was cut into parts may be replaced, removing nothing, exactly when
    its views have names that are allowed and nothing lies beside it but outputs and their drawings.
   */
  lemma SingleFileMigrates(sha: Hash, loads: Loads, dir: Files, outputs: Files, fields: seq<Entry>)
    requires MANIFEST_FILE in dir && |dir[MANIFEST_FILE]| <= MAXIMUM_INDEX_BYTES && loads(dir[MANIFEST_FILE]) == Some(Dict(fields))
    requires Lookup(fields, "schema") == Some(Str("critical-source-index-v1"))
    ensures Authorise(sha, loads, dir, outputs) == Some({}) <==>
      && PreviousViews(fields).Some?
      && forall name :: name in dir ==>
           name == MANIFEST_FILE || name in outputs || exists view :: name == view + ".mmd" && IsView(fields, view)
    ensures Authorise(sha, loads, dir, outputs).Some? ==> Authorise(sha, loads, dir, outputs) == Some({})
  {
    hide PreviousViews, IsViewFile, IsView, AdmitManifest, Lookup;
    assert |TRANSPORT_VERSION| != |VERSION|;
    if PreviousViews(fields).Some? {
      var previous := Previous([], PreviousViews(fields).value);
      assert ReadPrevious(loads, dir) == Some(previous);
      assert Retired(previous, outputs) == {};
      forall name: string
        ensures IsViewFile(PreviousViews(fields).value, name) <==> exists view :: name == view + ".mmd" && IsView(fields, view)
      {
        ViewFilesAre(fields, name);
      }
    }
  }
}
