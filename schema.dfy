/** The pieces of Zod that the form schemas are built from, as far as the schemas
    use them: `z.object` over string fields, each either required (`z.string()` with
    refinements such as `min` and `regex`, all of which run), `optional()`, or a
    `z.enum`, parsed with `safeParse`. */
module Schema {

  datatype Option<T> = None | Some(value: T)

  /** The values one form submits, by field name. A field the form does not send
      is absent from the map (Zod sees `undefined`). */
  type Form = map<string, string>

  /** One reported problem: the field it is attributed to and its message. */
  datatype Issue = Issue(path: string, message: string)

  /** The result of `schema.safeParse(form)`: the parsed record, or the issues. */
  datatype Outcome<T> = Valid(value: T) | Invalid(issues: seq<Issue>)

  /** The issues an outcome reports; a valid outcome reports none. */
  function Errors<T>(r: Outcome<T>): seq<Issue> {
    if r.Valid? then [] else r.issues
  }

  /** Zod's own message for an absent required value when the schema gives none. */
  const Required := "Required"

  /** Zod's own message for a failed `email()` when the schema gives none. */
  const InvalidEmail := "Invalid email"

  /** The value of a field, or the empty string when it is absent; only consulted
      where the field is present. */
  function Value(form: Form, path: string): string {
    if path in form then form[path] else ""
  }

  /** `z.string().optional()`: any value is accepted, and absence too. */
  function Optional(form: Form, path: string): Option<string> {
    if path in form then Some(form[path]) else None
  }

  /** One refinement of a string (`min`, `regex`, `email`): no message when it holds,
      its own message when it does not. */
  function Rule(holds: bool, message: string): seq<string> {
    if holds then [] else [message]
  }

  /** A required `z.string()` field: an absent value reports only `missing` (the
      refinements do not run); a present value reports the messages of every failed
      refinement, since Zod does not stop at the first one. */
  function StringField(form: Form, path: string, missing: string, refinements: seq<string>): seq<string> {
    if path in form then refinements else [missing]
  }

  /** A `z.enum(values)` field: an absent value reports `missing`, a value outside
      the list reports `notListed`, a listed value passes. */
  function EnumField(form: Form, path: string, values: seq<string>, missing: string, notListed: string): seq<string> {
    if path !in form then [missing]
    else if form[path] in values then []
    else [notListed]
  }

  /** The issues of one field, one per message, in order. */
  function Report(path: string, messages: seq<string>): seq<Issue> {
    seq(|messages|, i requires 0 <= i < |messages| => Issue(path, messages[i]))
  }

  /** The issue list of an object schema whose fields are `paths` and whose fields
      report `reports`: the fields' issues, field after field. */
  function ObjectIssues(paths: seq<string>, reports: seq<seq<string>>): (r: seq<Issue>)
    requires |paths| == |reports|
    ensures r == [] <==> forall k :: 0 <= k < |reports| ==> reports[k] == []
  {
    if paths == [] then []
    else
      var rest := ObjectIssues(paths[1..], reports[1..]);
      assert forall k :: 1 <= k < |reports| ==> reports[1..][k - 1] == reports[k];
      Report(paths[0], reports[0]) + rest
  }

  /** `z.object(...).safeParse`: the record when no field reports anything, otherwise
      the fields' issues. `record` is built from the form's values and only matters
      when it is returned. */
  function Object<T>(paths: seq<string>, reports: seq<seq<string>>, record: T): (r: Outcome<T>)
    requires |paths| == |reports|
    ensures Errors(r) == ObjectIssues(paths, reports)
    ensures r.Valid? <==> forall k :: 0 <= k < |reports| ==> reports[k] == []
    ensures r.Valid? ==> r.value == record
  {
    var issues := ObjectIssues(paths, reports);
    if issues == [] then Valid(record) else Invalid(issues)
  }

  /** The messages reported against `path`, in the order they are reported. This is
      the view a form takes of the issues when it shows each next to its field. */
  function MessagesAt(issues: seq<Issue>, path: string): seq<string> {
    if issues == [] then []
    else (if issues[0].path == path then [issues[0].message] else []) + MessagesAt(issues[1..], path)
  }

  /** An issue is reported exactly when its message is among those reported against its field. */
  lemma {:induction false} ReportedAt(issues: seq<Issue>, path: string, message: string)
    ensures Issue(path, message) in issues <==> message in MessagesAt(issues, path)
  {
    if issues != [] {
      ReportedAt(issues[1..], path, message);
      assert issues == [issues[0]] + issues[1..];
    }
  }

  lemma {:induction false} MessagesAtAppend(a: seq<Issue>, b: seq<Issue>, path: string)
    ensures MessagesAt(a + b, path) == MessagesAt(a, path) + MessagesAt(b, path)
  {
    if a == [] {
      assert a + b == b;
    } else {
      assert (a + b)[1..] == a[1..] + b;
      MessagesAtAppend(a[1..], b, path);
    }
  }

  lemma {:induction false} MessagesAtReport(path: string, messages: seq<string>, at: string)
    ensures MessagesAt(Report(path, messages), at) == if at == path then messages else []
  {
    if messages != [] {
      assert Report(path, messages)[1..] == Report(path, messages[1..]);
      MessagesAtReport(path, messages[1..], at);
    }
  }

  /** No two fields of an object schema share a name. */
  predicate Distinct(paths: seq<string>) {
    forall i, j :: 0 <= i < j < |paths| ==> paths[i] != paths[j]
  }

  lemma {:induction false} ObjectMessagesElsewhere(paths: seq<string>, reports: seq<seq<string>>, at: string)
    requires |paths| == |reports|
    requires at !in paths
    ensures MessagesAt(ObjectIssues(paths, reports), at) == []
  {
    if paths != [] {
      MessagesAtAppend(Report(paths[0], reports[0]), ObjectIssues(paths[1..], reports[1..]), at);
      MessagesAtReport(paths[0], reports[0], at);
      ObjectMessagesElsewhere(paths[1..], reports[1..], at);
    }
  }

  /** Fields do not disturb each other: what an object reports against one of its
      fields is exactly what that field reports. */
  lemma {:induction false} ObjectMessagesAt(paths: seq<string>, reports: seq<seq<string>>, k: nat)
    requires |paths| == |reports|
    requires Distinct(paths)
    requires k < |paths|
    ensures MessagesAt(ObjectIssues(paths, reports), paths[k]) == reports[k]
  {
    var at := paths[k];
    MessagesAtAppend(Report(paths[0], reports[0]), ObjectIssues(paths[1..], reports[1..]), at);
    MessagesAtReport(paths[0], reports[0], at);
    if k == 0 {
      ObjectMessagesElsewhere(paths[1..], reports[1..], at);
    } else {
      ObjectMessagesAt(paths[1..], reports[1..], k - 1);
    }
  }

  /** Where `path` stands among the fields of an object schema. */
  function IndexOf(paths: seq<string>, path: string): (k: nat)
    requires path in paths
    ensures k < |paths| && paths[k] == path
  {
    if paths[0] == path then 0 else 1 + IndexOf(paths[1..], path)
  }

  /** What an object reports against any name: what the field of that name reports,
      and nothing when the object has no such field. */
  lemma ObjectMessages(paths: seq<string>, reports: seq<seq<string>>, path: string)
    requires |paths| == |reports|
    requires Distinct(paths)
    ensures MessagesAt(ObjectIssues(paths, reports), path) ==
      if path in paths then reports[IndexOf(paths, path)] else []
  {
    if path in paths {
      ObjectMessagesAt(paths, reports, IndexOf(paths, path));
    } else {
      ObjectMessagesElsewhere(paths, reports, path);
    }
  }

  lemma ObjectReports<T>(paths: seq<string>, reports: seq<seq<string>>, record: T,
                         expected: string -> seq<string>, path: string)
    requires |paths| == |reports|
    requires Distinct(paths)
    requires forall k {:trigger reports[k]} :: 0 <= k < |paths| ==> reports[k] == expected(paths[k])
    requires forall p :: p !in paths ==> expected(p) == []
    ensures MessagesAt(Errors(Object(paths, reports, record)), path) == expected(path)
  {
    ObjectMessages(paths, reports, path);
    if path in paths {
      var k := IndexOf(paths, path);
    }
  }

  /** A list of issues is empty exactly when no field has a message reported against it. */
  lemma NothingReported(issues: seq<Issue>)
    ensures issues == [] <==> forall path :: MessagesAt(issues, path) == []
  {
    if issues != [] {
      assert MessagesAt(issues, issues[0].path) != [];
    }
  }
}
