/** Publishing the files of an index one by one, from any interruption, with the manifest last. */
module Publication {
  import opened Text
  import opened Sorting
  import opened Values
  import opened Json
  import opened Projection
  import opened Transport
  import opened TransportReader

  // ------------------------------------------------------------------- what is already there

  /** What the manifest found in the directory vouches for. */
  datatype Previous = Previous(parts: seq<Descriptor>, views: set<string>)

  /** The views of the index found in the directory; `None` refuses the publication. */
  function PreviousViews(fields: seq<Entry>): Option<set<string>> {
    match Lookup(fields, "allowed")
    case None => Some({})
    case Some(Dict(allowed)) => if Lookup(allowed, "views").None? then Some({}) else ViewNames(allowed)
    case _ => None
  }

  /** A manifest that cannot be read or admitted vouches for nothing. */
  function ReadPrevious(loads: Loads, dir: Files): Option<Previous> {
    if MANIFEST_FILE !in dir then Some(Previous([], {}))
    else if |dir[MANIFEST_FILE]| > MAXIMUM_INDEX_BYTES then None
    else
      var raw := dir[MANIFEST_FILE];
      match loads(raw)
      case None => Some(Previous([], {}))
      case Some(v) =>
        if Field(v, "schema") == Some(Str(TRANSPORT_VERSION)) then
          match AdmitManifest(raw, v)
          case None => Some(Previous([], {}))
          case Some(m) =>
            var views :- PreviousViews(m.fields);
            Some(Previous(m.parts, views))
        else if Field(v, "schema") == Some(Str(VERSION)) then
          var views :- PreviousViews(v.entries);
          Some(Previous([], views))
        else Some(Previous([], {}))
  }

  /** An old part may be removed only if it is the file its descriptor names. */
  predicate IsProven(sha: Hash, loads: Loads, dir: Files, d: Descriptor) {
    d.file in dir ==>
      ReadFile(loads, dir, d.file, d.bytes).Some? && |dir[d.file]| == d.bytes && sha(dir[d.file]) == d.sha
  }

  predicate IsKnown(previous: Previous, outputs: Files, name: string) {
    name in outputs || IsPartFile(previous.parts, name) || IsViewFile(previous.views, name)
  }

  function Retired(previous: Previous, outputs: Files): set<string> {
    set d | d in previous.parts && d.file !in outputs :: d.file
  }

  /** The old parts a publication will remove; `None` where it refuses to touch the directory. */
  function Authorise(sha: Hash, loads: Loads, dir: Files, outputs: Files): Option<set<string>> {
    var previous :- ReadPrevious(loads, dir);
    if (forall name :: name in dir ==> name == MANIFEST_FILE || IsKnown(previous, outputs, name))
       && (forall d :: d in previous.parts && d.file !in outputs ==> IsProven(sha, loads, dir, d))
    then Some(Retired(previous, outputs)) else None
  }

  // --------------------------------------------------------------------------- single steps

  datatype Step = Write(name: string, content: Bytes) | Unlink(name: string)

  function Do(dir: Files, step: Step): Files {
    match step
    case Write(name, content) => dir[name := content]
    case Unlink(name) => dir - {name}
  }

  /** A run stops before a step, or inside the write of a file, which then holds a prefix. */
  datatype Stop = Never | Before(step: nat) | Inside(step: nat, kept: nat)

  function Torn(dir: Files, step: Step, kept: nat): Files {
    match step
    case Write(name, content) => dir[name := content[..if kept < |content| then kept else |content|]]
    case Unlink(_) => dir
  }

  /** The directory a run leaves behind. */
  function Run(dir: Files, steps: seq<Step>, stop: Stop): Files
    decreases |steps|
  {
    if steps == [] then dir
    else match stop
      case Never => Run(Do(dir, steps[0]), steps[1..], Never)
      case Before(n) => if n == 0 then dir else Run(Do(dir, steps[0]), steps[1..], Before(n - 1))
      case Inside(n, kept) => if n == 0 then Torn(dir, steps[0], kept) else Run(Do(dir, steps[0]), steps[1..], Inside(n - 1, kept))
  }

  /** The members of a set in code point order. */
  ghost function InOrder(names: set<string>): (r: seq<string>)
    ensures forall x :: x in r <==> x in names
    ensures Increasing((a: string, b: string) => Less(CodePoints(a), CodePoints(b)), r)
  {
    if names == {} then []
    else
      var x :| x in names;
      AddKeyIs(InOrder(names - {x}), x);
      AddKey(InOrder(names - {x}), x)
  }

  function Writes(outputs: Files, names: seq<string>): (r: seq<Step>)
    requires forall x :: x in names ==> x in outputs
    ensures |r| == |names| && forall k :: 0 <= k < |names| ==> r[k] == Write(names[k], outputs[names[k]])
  {
    seq(|names|, k requires 0 <= k < |names| => Write(names[k], outputs[names[k]]))
  }

  function Unlinks(names: seq<string>): (r: seq<Step>)
    ensures |r| == |names| && forall k :: 0 <= k < |names| ==> r[k] == Unlink(names[k])
  {
    seq(|names|, k requires 0 <= k < |names| => Unlink(names[k]))
  }

  /** All outputs but the manifest, then the retired parts, then the manifest. */
  ghost function Steps(outputs: Files, retired: set<string>): seq<Step>
    requires MANIFEST_FILE in outputs
  {
    Writes(outputs, InOrder(outputs.Keys - {MANIFEST_FILE})) + Unlinks(InOrder(retired))
    + [Write(MANIFEST_FILE, outputs[MANIFEST_FILE])]
  }

  /** `write_outputs`, stopped anywhere. */
  ghost function Publish(sha: Hash, loads: Loads, dir: Files, outputs: Files, stop: Stop): Files
    requires MANIFEST_FILE in outputs
  {
    match Authorise(sha, loads, dir, outputs)
    case None => dir
    case Some(retired) => Run(dir, Steps(outputs, retired), stop)
  }

  // -------------------------------------------------------------------------- the directory

  /** A directory and the point at which the process writing to it will stop. */
  class Directory {
    var files: Files
    var stop: Stop

    constructor (files: Files, stop: Stop)
      ensures this.files == files && this.stop == stop
    {
      this.files, this.stop := files, stop;
    }

    /** One step, unless the process stops first. */
    method Perform(step: Step) returns (alive: bool)
      modifies this
      ensures alive == !((old(stop).Before? || old(stop).Inside?) && old(stop).step == 0)
      ensures alive ==> files == Do(old(files), step)
      ensures !alive ==> files == if old(stop).Inside? then Torn(old(files), step, old(stop).kept) else old(files)
      ensures alive ==> stop == match old(stop)
        case Never => Never
        case Before(n) => Before(n - 1)
        case Inside(n, kept) => Inside(n - 1, kept)
    {
      match stop
      case Never =>
        files := Do(files, step);
        return true;
      case Before(n) =>
        if n == 0 {
          return false;
        }
        files, stop := Do(files, step), Before(n - 1);
        return true;
      case Inside(n, kept) =>
        if n == 0 {
          files := Torn(files, step, kept);
          return false;
        }
        files, stop := Do(files, step), Inside(n - 1, kept);
        return true;
    }

    /** Steps in order; what is left to do is left to the rest of the run. */
    method PerformAll(steps: seq<Step>, ghost rest: seq<Step>) returns (alive: bool)
      modifies this
      ensures alive ==> Run(old(files), steps + rest, old(stop)) == Run(files, rest, stop)
      ensures !alive ==> Run(old(files), steps + rest, old(stop)) == files
    {
      ghost var todo := steps + rest;
      for k := 0 to |steps|
        invariant todo == (steps + rest)[k..]
        invariant Run(files, todo, stop) == Run(old(files), steps + rest, old(stop))
      {
        assert todo[0] == steps[k];
        alive := Perform(steps[k]);
        if !alive {
          return;
        }
        todo := todo[1..];
      }
      assert todo == rest;
      alive := true;
    }
  }

  method SortNames(names: set<string>) returns (r: seq<string>)
    ensures r == InOrder(names)
  {
    hide AddKey, Less, InOrder;
    r := [];
    var rest := names;
    while rest != {}
      invariant rest <= names && forall x :: x in r <==> x in names - rest
      invariant Increasing((a: string, b: string) => Less(CodePoints(a), CodePoints(b)), r)
      decreases rest
    {
      var x :| x in rest;
      AddKeyIs(r, x);
      r, rest := AddKey(r, x), rest - {x};
    }
    forall a: string, b: string | Less(CodePoints(a), CodePoints(b))
      ensures !Less(CodePoints(b), CodePoints(a))
    {
      LessAsymmetric(CodePoints(a), CodePoints(b));
    }
    IncreasingUnique((a: string, b: string) => Less(CodePoints(a), CodePoints(b)), r, InOrder(names));
  }

  /** `write_outputs`: nothing is touched unless everything found is known and every retired part is proven. */
  method WriteOutputs(sha: Hash, loads: Loads, directory: Directory, outputs: Files)
    requires MANIFEST_FILE in outputs
    modifies directory
    ensures directory.files == Publish(sha, loads, old(directory.files), outputs, old(directory.stop))
  {
    hide Authorise, InOrder, Run;
    var retired := Authorise(sha, loads, directory.files, outputs);
    if retired.None? {
      return;
    }
    var manifest := [Write(MANIFEST_FILE, outputs[MANIFEST_FILE])];
    var names := SortNames(outputs.Keys - {MANIFEST_FILE});
    var oldNames := SortNames(retired.value);
    var writes, unlinks := Writes(outputs, names), Unlinks(oldNames);
    assert Steps(outputs, retired.value) == writes + (unlinks + manifest);
    var alive := directory.PerformAll(writes, unlinks + manifest);
    if !alive {
      return;
    }
    alive := directory.PerformAll(unlinks, manifest);
    if !alive {
      return;
    }
    assert manifest + [] == manifest;
    alive := directory.PerformAll(manifest, []);
    NothingLeft(directory.files, directory.stop);
  }

  lemma NothingLeft(dir: Files, stop: Stop)
    ensures Run(dir, [], stop) == dir
  {}
}
