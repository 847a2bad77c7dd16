/** What a printed patch means: a reader of its text, the operations applied to a resource
    (section 4.3 of RFC 6902), and what a render does to the migration Job. */
module PatchMeaning {
  import opened Results
  import opened Text
  import opened Formats
  import opened Kustomization
  import opened PatchText
  import opened Rewriter

  /** A scalar: the two words for truth values, and any other text. */
  datatype Scalar = Flag(flag: bool) | Words(text: string)

  function ScalarOf(text: string): Scalar {
    if text == "true" then Flag(true) else if text == "false" then Flag(false) else Words(text)
  }

  datatype Target = Target(group: string, version: string, kind: string, name: string)

  datatype Operation = Operation(op: string, path: string, value: Scalar)

  datatype Patch = Patch(target: Target, operations: seq<Operation>)

  // ---------------------------------------------------------------- reading

  function ReadTarget(lines: seq<string>): Option<Target>
    requires |lines| == 4
  {
    match (Field(lines[0], "    group: "), Field(lines[1], "    version: "),
           Field(lines[2], "    kind: "), Field(lines[3], "    name: "))
    case (Some(group), Some(version), Some(kind), Some(name)) => Some(Target(group, version, kind, name))
    case _ => None
  }

  /** Operations of three lines each. */
  function ReadOperations(lines: seq<string>): Option<seq<Operation>>
    decreases |lines|
  {
    if lines == [] then Some([])
    else if |lines| < 3 then None
    else
      match (Field(lines[0], "    - op: "), Field(lines[1], "      path: "), Field(lines[2], "      value: "))
      case (Some(op), Some(path), Some(value)) =>
        (match ReadOperations(lines[3..])
         case Some(rest) => Some([Operation(op, path, ScalarOf(value))] + rest)
         case None => None)
      case _ => None
  }

  /** A list of one patch, whose operations stand in a block of text. */
  function ReadPatch(text: string): Option<Patch> {
    var lines := SplitLines(LfOnly, text);
    if |lines| < 7 || lines[0] != "patches:\n" || lines[1] != "- target:\n" || lines[6] != "  patch: |-\n" then None
    else
      match (ReadTarget(lines[2..6]), ReadOperations(lines[7..]))
      case (Some(target), Some(operations)) => Some(Patch(target, operations))
      case _ => None
  }

  // ---------------------------------------------------------------- applying

  /** A resource: what it is, and its scalar fields by their paths. */
  datatype Resource = Resource(target: Target, fields: map<string, Scalar>)

  /** replace wants the field to be there; no other operation occurs here. */
  function Replace(fields: map<string, Scalar>, operations: seq<Operation>): Option<map<string, Scalar>>
    decreases |operations|
  {
    if operations == [] then Some(fields)
    else
      var o := operations[0];
      if o.op == "replace" && o.path in fields then Replace(fields[o.path := o.value], operations[1..]) else None
  }

  /** A patch changes the resources that its target names, and no others. */
  function Apply(patch: Patch, r: Resource): Option<Resource> {
    if r.target != patch.target then Some(r)
    else
      match Replace(r.fields, patch.operations)
      case Some(fields) => Some(r.(fields := fields))
      case None => None
  }

  // ---------------------------------------------------------------- the printed patch, read

  lemma TargetRead()
    ensures ReadTarget(TARGET_LINES[2..]) == Some(Target("batch", "v1", "Job", "devpath-flyway-migrate"))
  {
    FieldRead(TARGET_LINES[2], "    group: ", "batch");
    FieldRead(TARGET_LINES[3], "    version: ", "v1");
    FieldRead(TARGET_LINES[4], "    kind: ", "Job");
    FieldRead(TARGET_LINES[5], "    name: ", "devpath-flyway-migrate");
  }

  lemma OperationRead(lines: seq<string>, op: string, path: string, value: string, rest: seq<Operation>)
    requires |lines| >= 3
    requires lines[0] == "    - op: " + op + "\n" && lines[1] == "      path: " + path + "\n"
    requires lines[2] == "      value: " + value + "\n" && ReadOperations(lines[3..]) == Some(rest)
    ensures ReadOperations(lines) == Some([Operation(op, path, ScalarOf(value))] + rest)
  {
    FieldRead(lines[0], "    - op: ", op);
    FieldRead(lines[1], "      path: ", path);
    FieldRead(lines[2], "      value: ", value);
  }

  lemma SuspendRead()
    ensures ReadOperations(SUSPEND_OPERATION) == Some([Operation("replace", "/spec/suspend", Flag(false))])
  {
    var last := Operation("replace", "/spec/suspend", ScalarOf("false"));
    assert SUSPEND_OPERATION[3..] == [] && |"false"| == 5 && |"true"| == 4;
    OperationRead(SUSPEND_OPERATION, "replace", "/spec/suspend", "false", []);
    assert [last] + [] == [last];
  }

  /** The two operations of a patch for a name. */
  function Operations(name: string): seq<Operation> {
    [Operation("replace", "/metadata/name", Words(name)), Operation("replace", "/spec/suspend", Flag(false))]
  }

  lemma OperationLines(name: string)
    ensures PatchLines(name)[7..] == [NAME_OPERATION[1], NAME_OPERATION[2], NameLine(name)] + SUSPEND_OPERATION
  {
  }

  lemma OperationsThen(three: seq<string>, op: string, path: string, value: string, rest: seq<string>,
        operations: seq<Operation>)
    requires |three| == 3 && ReadOperations(rest) == Some(operations)
    requires three[0] == "    - op: " + op + "\n" && three[1] == "      path: " + path + "\n"
    requires three[2] == "      value: " + value + "\n"
    ensures ReadOperations(three + rest) == Some([Operation(op, path, ScalarOf(value))] + operations)
  {
    assert (three + rest)[3..] == rest;
    OperationRead(three + rest, op, path, value, operations);
  }

  lemma NameOperationLines(name: string)
    ensures NAME_OPERATION[1] == "    - op: " + "replace" + "\n"
    ensures NAME_OPERATION[2] == "      path: " + "/metadata/name" + "\n"
    ensures NameLine(name) == "      value: " + name + "\n"
  {
  }

  lemma NameOperationRead(name: string, rest: seq<string>, operations: seq<Operation>)
    requires IsJobName(name) && ReadOperations(rest) == Some(operations)
    ensures ReadOperations([NAME_OPERATION[1], NAME_OPERATION[2], NameLine(name)] + rest)
         == Some([Operation("replace", "/metadata/name", Words(name))] + operations)
  {
    NameOperationLines(name);
    NameIsWords(name);
    OperationsThen([NAME_OPERATION[1], NAME_OPERATION[2], NameLine(name)], "replace", "/metadata/name", name,
                   rest, operations);
  }

  lemma OperationsRead(name: string)
    requires IsJobName(name)
    ensures ReadOperations(PatchLines(name)[7..]) == Some(Operations(name))
  {
    OperationLines(name);
    SuspendRead();
    NameOperationRead(name, SUSPEND_OPERATION, [Operation("replace", "/spec/suspend", Flag(false))]);
    Joined(Operation("replace", "/metadata/name", Words(name)), Operation("replace", "/spec/suspend", Flag(false)));
  }

  lemma Joined(a: Operation, b: Operation)
    ensures [a] + [b] == [a, b]
  {
  }

  lemma NameIsWords(name: string)
    requires IsJobName(name)
    ensures ScalarOf(name) == Words(name)
  {
    assert |MIGRATION_JOB_PREFIX| == 23 && |"false"| == 5 && |"true"| == 4;
  }

  /** The printed patch, read: the target and two operations. */
  lemma PatchRead(name: string)
    requires IsJobName(name)
    ensures ReadPatch(ReleasePatch(name))
         == Some(Patch(Target("batch", "v1", "Job", "devpath-flyway-migrate"), Operations(name)))
  {
    var lines := PatchLines(name);
    PatchNamesItsJob(name);
    assert lines[2..6] == TARGET_LINES[2..];
    assert lines[0] == TARGET_LINES[0] && lines[1] == TARGET_LINES[1] && lines[6] == NAME_OPERATION[0];
    TargetRead();
    OperationsRead(name);
  }

  lemma OperationsApply(fields: map<string, Scalar>, name: string)
    requires "/metadata/name" in fields && "/spec/suspend" in fields
    ensures Replace(fields, Operations(name))
         == Some(fields["/metadata/name" := Words(name)]["/spec/suspend" := Flag(false)])
  {
    var ops := Operations(name);
    assert ops[1..] == [ops[1]] && ops[1..][1..] == [];
    var renamed := fields["/metadata/name" := Words(name)];
    assert Replace(renamed, ops[1..]) == Some(renamed["/spec/suspend" := Flag(false)]);
  }

  /** The Job name, spelled out. */
  lemma NameSpelled(digest: string, sha: string)
    requires IsDigest(digest) && IsSha64(sha)
    ensures DerivedJobName(digest, sha) == "devpath-flyway-migrate-" + digest[7..19] + "-" + sha[..24]
  {
    assert digest[7..][..12] == digest[7..19];
  }

  /** What follows the body of a text that the parser accepts. */
  function PatchPart(text: string): string
    requires BaseParts(text).Ok? && |BaseParts(text).value.body| <= |text|
  {
    text[|BaseParts(text).value.body|..]
  }

  lemma RenderedPart(text: string, digest: string, sha: string)
    requires Render(text, digest, sha).Ok?
    ensures IsDigest(digest) && IsSha64(sha)
    ensures var out := Render(text, digest, sha).value;
      && BaseParts(out).Ok? && |BaseParts(out).value.body| <= |out|
      && PatchPart(out) == ReleasePatch(DerivedJobName(digest, sha))
  {
    RenderSucceeds(text, digest, sha);
    var (body, patch) := (NewBody(BaseParts(text).value.body, digest), ReleasePatch(DerivedJobName(digest, sha)));
    assert (body + patch)[|body|..] == patch;
  }

  /** Main result: what a render is for. Its patch, read from the text, takes the suspended Job to the
      Job that is named after the release and runs; every other field of the Job stays as it was, and
      so does every other resource. */
  lemma RenderStartsTheJob(text: string, digest: string, sha: string, r: Resource)
    requires Render(text, digest, sha).Ok?
    ensures var out := Render(text, digest, sha).value;
      && BaseParts(out).Ok? && |BaseParts(out).value.body| <= |out|
      && ReadPatch(PatchPart(out)).Some?
    ensures IsDigest(digest) && IsSha64(sha)
    ensures var patch := ReadPatch(PatchPart(Render(text, digest, sha).value)).value;
      var job := Target("batch", "v1", "Job", "devpath-flyway-migrate");
      var name := "devpath-flyway-migrate-" + digest[7..19] + "-" + sha[..24];
      && (r.target != job ==> Apply(patch, r) == Some(r))
      && (r.target == job && "/metadata/name" in r.fields && "/spec/suspend" in r.fields ==>
            Apply(patch, r)
              == Some(Resource(job, r.fields["/metadata/name" := Words(name)]["/spec/suspend" := Flag(false)])))
  {
    RenderedPart(text, digest, sha);
    DerivedJobNameParts(digest, sha);
    PatchRead(DerivedJobName(digest, sha));
    NameSpelled(digest, sha);
    if "/metadata/name" in r.fields && "/spec/suspend" in r.fields {
      OperationsApply(r.fields, DerivedJobName(digest, sha));
    }
  }
}
