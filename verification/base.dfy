/** Shared vocabulary: optional and fallible values, submitted form entries,
    and the lower-casing that both route schemas apply to the email. */
module Base {

  datatype Option<+T> = None | Some(value: T)

  datatype Result<+T, +E> = Ok(value: T) | Err(error: E)

  /** One value of a submitted form: either text, or an uploaded file
      (which is never a JavaScript string). */
  datatype FormEntry = Text(text: string) | Upload

  /** A submitted form: field name to the value `formData.get(name)` sees. */
  type FormData = map<string, FormEntry>

  /** `formData.get(name)`: the entry, or null when the field is absent. */
  function Get(form: FormData, name: string): (r: Option<FormEntry>)
    ensures r.Some? <==> name in form
    ensures r.Some? ==> r.value == form[name]
  {
    if name in form then Some(form[name]) else None
  }

  /** The string a field holds when `typeof value === "string"`, else None. */
  function Str(e: Option<FormEntry>): (r: Option<string>)
    ensures r.Some? <==> (e.Some? && e.value.Text?)
    ensures r.Some? ==> e == Some(Text(r.value))
  {
    match e
    case Some(Text(s)) => Some(s)
    case _ => None
  }

  predicate IsUpper(c: char) {
    'A' <= c <= 'Z'
  }

  function LowerChar(c: char): (d: char)
    ensures !IsUpper(d)
    ensures !IsUpper(c) ==> d == c
  {
    if IsUpper(c) then (c as int + 32) as char else c
  }

  /** `String.prototype.toLowerCase`, restricted to the ASCII letters. */
  function Lower(s: string): (r: string)
    ensures |r| == |s|
    ensures forall i :: 0 <= i < |s| ==> r[i] == LowerChar(s[i])
  {
    if s == [] then [] else [LowerChar(s[0])] + Lower(s[1..])
  }

  /** No ASCII upper-case letter occurs in `s`. */
  predicate IsLowerCase(s: string) {
    forall i :: 0 <= i < |s| ==> !IsUpper(s[i])
  }

  /** Lower-casing leaves no upper-case letter behind. */
  lemma LowerIsLowerCase(s: string)
    ensures IsLowerCase(Lower(s))
  {
  }

  /** A string is a fixed point of lower-casing exactly when it is already
      lower case. */
  lemma {:induction false} LowerFixes(s: string)
    ensures IsLowerCase(s) <==> Lower(s) == s
  {
    if s != [] {
      LowerFixes(s[1..]);
      if IsLowerCase(s) {
        assert IsLowerCase(s[1..]) by {
          forall i | 0 <= i < |s[1..]| ensures !IsUpper(s[1..][i]) {
            assert s[1..][i] == s[i + 1];
          }
        }
      }
      if Lower(s) == s {
        forall i | 0 <= i < |s| ensures !IsUpper(s[i]) {
          assert s[i] == Lower(s)[i] == LowerChar(s[i]);
        }
      }
    }
  }

  /** Lower-casing twice is lower-casing once. */
  lemma LowerIdempotent(s: string)
    ensures Lower(Lower(s)) == Lower(s)
  {
    LowerIsLowerCase(s);
    LowerFixes(Lower(s));
  }
}
