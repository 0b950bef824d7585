/** The string-field rules the route schemas are built from, the issues they
    report, and the error map the form library derives from those issues.

    Semantics of the schema library that the routes rely on:
    - an empty string is read as an absent field;
    - an absent field or a non-string value is a hard failure of that field
      (one issue, and no cross-field or server-side refinement runs);
    - every length or format check that fails adds its own issue, and then
      refinements still run;
    - a field's conversion (lower-casing the email) applies only when all of
      that field's checks pass, so the refinements see the converted value of
      a field that passed and the raw value of one that failed. */
module Validation {
  import opened Base

  /** A validation issue; the path "" marks a form-level issue. */
  datatype Issue = Issue(path: string, message: string)

  /** A schema run: its issues, and the validated value exactly when there
      are none. */
  datatype Parsed<V> = Parsed(issues: seq<Issue>, value: Option<V>)

  /** The path of an issue not attached to any field. */
  const FormLevel: string := ""

  /** A required string field with a length window and its three messages. */
  datatype StringRule = StringRule(
    required: string,
    tooShort: string,
    tooLong: string,
    min: nat,
    max: nat)

  /** The format check's message on the email field. */
  const InvalidEmail: string := "Email is invalid"

  /** The schema library's own message for a value that is not a string. */
  const NotAString: string := "Expected string, received object"

  /** The outcome for one field: a hard failure with its one message, or a
      string that went through the checks, with the messages of those that
      failed. */
  datatype FieldResult = Missing(message: string) | Checked(value: string, messages: seq<string>)
  {
    predicate Valid() { Checked? && messages == [] }
  }

  /** The min and max checks, in that order. */
  function LengthMessages(rule: StringRule, s: string): (ms: seq<string>)
    ensures ms == [] <==> rule.min <= |s| <= rule.max
    ensures |s| < rule.min ==> ms[0] == rule.tooShort
    ensures |s| > rule.max ==> ms[|ms| - 1] == rule.tooLong
    ensures forall m :: m in ms ==> m == rule.tooShort || m == rule.tooLong
  {
    (if |s| < rule.min then [rule.tooShort] else [])
    + (if |s| > rule.max then [rule.tooLong] else [])
  }

  /** The entry as the schema sees it once the empty string reads as absent. */
  function Present(e: Option<FormEntry>): (r: Option<string>)
    ensures r.Some? <==> Str(e).Some? && Str(e).value != ""
    ensures r.Some? ==> r == Str(e)
  {
    match Str(e)
    case Some(s) => if s == "" then None else Some(s)
    case None => None
  }

  /** A required string field with a length window. */
  function ParseText(rule: StringRule, e: Option<FormEntry>): (r: FieldResult)
    ensures r.Missing? <==> Present(e).None?
    ensures r.Missing? ==> r.message == (if e == Some(Upload) then NotAString else rule.required)
    ensures r.Checked? ==> r.value == Present(e).value
                           && r.messages == LengthMessages(rule, r.value)
    ensures r.Valid() <==> Present(e).Some? && rule.min <= |Present(e).value| <= rule.max
  {
    match Present(e)
    case None => Missing(if e == Some(Upload) then NotAString else rule.required)
    case Some(s) => Checked(s, LengthMessages(rule, s))
  }

  /** The email field: the format check, then the length window; when all
      pass, the value is converted to lower case. */
  function ParseEmail(rule: StringRule, e: Option<FormEntry>, isEmail: string -> bool): (r: FieldResult)
    ensures r.Missing? <==> Present(e).None?
    ensures r.Missing? ==> r.message == (if e == Some(Upload) then NotAString else rule.required)
    ensures r.Valid() <==> Present(e).Some? && isEmail(Present(e).value)
                           && rule.min <= |Present(e).value| <= rule.max
    ensures r.Valid() ==> r.value == Lower(Present(e).value)
    ensures r.Checked? && !r.Valid() ==> r.value == Present(e).value
    ensures r.Checked? ==> r.messages == (if isEmail(Present(e).value) then [] else [InvalidEmail])
                                         + LengthMessages(rule, Present(e).value)
  {
    match Present(e)
    case None => Missing(if e == Some(Upload) then NotAString else rule.required)
    case Some(s) =>
      var ms := (if isEmail(s) then [] else [InvalidEmail]) + LengthMessages(rule, s);
      Checked(if ms == [] then Lower(s) else s, ms)
  }

  /** Each message as an issue on `path`. */
  function AtPath(path: string, ms: seq<string>): (issues: seq<Issue>)
    ensures |issues| == |ms|
    ensures forall i :: 0 <= i < |ms| ==> issues[i] == Issue(path, ms[i])
  {
    if ms == [] then [] else [Issue(path, ms[0])] + AtPath(path, ms[1..])
  }

  /** The issues one field contributes, all on that field's path. */
  function FieldIssues(path: string, r: FieldResult): (issues: seq<Issue>)
    ensures issues == [] <==> r.Valid()
    ensures forall i :: 0 <= i < |issues| ==> issues[i].path == path
    ensures r.Checked? ==> |issues| == |r.messages|
                           && forall i :: 0 <= i < |issues| ==> issues[i].message == r.messages[i]
    ensures r.Missing? ==> issues == [Issue(path, r.message)]
  {
    match r
    case Missing(m) => [Issue(path, m)]
    case Checked(_, ms) => AtPath(path, ms)
  }

  /** The paths that carry at least one issue. */
  function Paths(issues: seq<Issue>): set<string> {
    set i | 0 <= i < |issues| :: issues[i].path
  }

  /** The messages filed under `path`, in order. */
  function MessagesAt(issues: seq<Issue>, path: string): (ms: seq<string>)
    ensures |ms| <= |issues|
    ensures forall m :: m in ms ==> Issue(path, m) in issues
  {
    if issues == [] then []
    else (if issues[0].path == path then [issues[0].message] else []) + MessagesAt(issues[1..], path)
  }

  /** The list filed under `path`, or the empty list. */
  function Lookup(m: map<string, seq<string>>, path: string): seq<string> {
    if path in m then m[path] else []
  }

  /** One step of the library's fold: append the message to its path's list. */
  function File(acc: map<string, seq<string>>, issue: Issue): (r: map<string, seq<string>>)
    ensures r.Keys == acc.Keys + {issue.path}
    ensures forall k :: Lookup(r, k) == Lookup(acc, k) + (if issue.path == k then [issue.message] else [])
  {
    acc[issue.path := Lookup(acc, issue.path) + [issue.message]]
  }

  /** Fold `issues` into `acc`, front to back. */
  function Collect(acc: map<string, seq<string>>, issues: seq<Issue>): (m: map<string, seq<string>>)
    ensures m.Keys == acc.Keys + Paths(issues)
    ensures forall k :: Lookup(m, k) == Lookup(acc, k) + MessagesAt(issues, k)
    decreases |issues|
  {
    if issues == [] then acc
    else
      var m := Collect(File(acc, issues[0]), issues[1..]);
      PathsCons(issues);
      forall k ensures Lookup(m, k) == Lookup(acc, k) + MessagesAt(issues, k) {
        var before, here, after := Lookup(acc, k), if issues[0].path == k then [issues[0].message] else [], MessagesAt(issues[1..], k);
        assert Lookup(m, k) == (before + here) + after;
        assert MessagesAt(issues, k) == here + after;
        ConcatAssoc(before, here, after);
      }
      m
  }

  lemma ConcatAssoc<T>(a: seq<T>, b: seq<T>, c: seq<T>)
    ensures (a + b) + c == a + (b + c)
  {
  }

  lemma PathsCons(issues: seq<Issue>)
    requires issues != []
    ensures Paths(issues) == {issues[0].path} + Paths(issues[1..])
  {
    forall p | p in Paths(issues) ensures p in {issues[0].path} + Paths(issues[1..]) {
      var i :| 0 <= i < |issues| && issues[i].path == p;
      if i > 0 { assert issues[1..][i - 1] == issues[i]; }
    }
    forall p | p in Paths(issues[1..]) ensures p in Paths(issues) {
      var i :| 0 <= i < |issues[1..]| && issues[1..][i].path == p;
      assert issues[i + 1] == issues[1..][i];
    }
  }

  /** The submission's error map: field path to its messages. */
  function ErrorMap(issues: seq<Issue>): (m: map<string, seq<string>>)
    ensures m.Keys == Paths(issues)
    ensures forall k :: k in m ==> m[k] == MessagesAt(issues, k) && m[k] != []
  {
    var m := Collect(map[], issues);
    forall k | k in m ensures m[k] == MessagesAt(issues, k) != [] {
      assert Lookup(m, k) == MessagesAt(issues, k);
      MessagesAtNonEmpty(issues, k);
    }
    m
  }

  /** A path that carries an issue has a message under it. */
  lemma {:induction false} MessagesAtNonEmpty(issues: seq<Issue>, path: string)
    requires path in Paths(issues)
    ensures MessagesAt(issues, path) != []
  {
    if issues[0].path != path {
      var i :| 0 <= i < |issues| && issues[i].path == path;
      assert issues[1..][i - 1] == issues[i];
      MessagesAtNonEmpty(issues[1..], path);
    }
  }

  /** Every issue's message is filed under its path. */
  lemma {:induction false} MessageFiled(issues: seq<Issue>, i: nat)
    requires i < |issues|
    ensures issues[i].path in ErrorMap(issues)
    ensures issues[i].message in ErrorMap(issues)[issues[i].path]
  {
    assert issues[i].path in Paths(issues);
    MessageInMessagesAt(issues, i);
  }

  lemma {:induction false} MessageInMessagesAt(issues: seq<Issue>, i: nat)
    requires i < |issues|
    ensures issues[i].message in MessagesAt(issues, issues[i].path)
  {
    if i > 0 {
      assert issues[1..][i - 1] == issues[i];
      MessageInMessagesAt(issues[1..], i - 1);
    }
  }

  /** A single form-level issue yields exactly the map `{"": [message]}`. */
  lemma ErrorMapSingle(message: string)
    ensures ErrorMap([Issue(FormLevel, message)]) == map[FormLevel := [message]]
  {
    var m := ErrorMap([Issue(FormLevel, message)]);
    assert Paths([Issue(FormLevel, message)]) == {FormLevel};
    assert MessagesAt([Issue(FormLevel, message)], FormLevel) == [message];
  }
}
