/**
 * The JavaScript values the site-configuration step reads from the backend
 * payload, their truthiness, their string conversion, and String.prototype.trim.
 */
module JsValues {

  /**
   * One property of the configuration payload: missing (undefined), a string,
   * or a value of another type, given by its truthiness and by the text that
   * JavaScript's String(v) conversion yields for it.
   */
  datatype JsValue = Undefined | Str(s: string) | NonString(truthy: bool, text: string)

  /** JavaScript truthiness: undefined and "" are falsy, other strings truthy. */
  predicate Truthy(v: JsValue) {
    match v
    case Undefined => false
    case Str(s) => s != []
    case NonString(t, _) => t
  }

  /** String(v): the text a DOM attribute receives when v is assigned to it. */
  function ToJsString(v: JsValue): string {
    match v
    case Undefined => "undefined"
    case Str(s) => s
    case NonString(_, t) => t
  }

  /**
   * The characters trim() removes: the ECMAScript WhiteSpace set (tab, vertical
   * tab, form feed, space, no-break space, byte order mark and the Unicode Zs
   * category) and the LineTerminator set (LF, CR, LS, PS).
   */
  predicate IsWhitespace(c: char) {
    c == '\t' || c == '\U{000B}' || c == '\U{000C}' || c == ' ' || c == '\U{00A0}' || c == '\U{FEFF}'
    || c == '\U{1680}' || ('\U{2000}' <= c <= '\U{200A}') || c == '\U{202F}' || c == '\U{205F}' || c == '\U{3000}'
    || c == '\n' || c == '\r' || c == '\U{2028}' || c == '\U{2029}'
  }

  predicate AllWhitespace(s: string) {
    forall k :: 0 <= k < |s| ==> IsWhitespace(s[k])
  }

  /** s with its leading whitespace removed. */
  function TrimStart(s: string): (r: string)
    ensures |r| <= |s| && r == s[|s| - |r|..]
    ensures AllWhitespace(s[..|s| - |r|])
    ensures r == [] || !IsWhitespace(r[0])
  {
    if s != [] && IsWhitespace(s[0]) then
      var r := TrimStart(s[1..]);
      assert s[..|s| - |r|] == [s[0]] + s[1..][..|s| - 1 - |r|];
      r
    else s
  }

  /** s with its trailing whitespace removed. */
  function TrimEnd(s: string): (r: string)
    ensures |r| <= |s| && r == s[..|r|]
    ensures AllWhitespace(s[|r|..])
    ensures r == [] || !IsWhitespace(r[|r| - 1])
  {
    if s != [] && IsWhitespace(s[|s| - 1]) then
      var r := TrimEnd(s[..|s| - 1]);
      assert s[|r|..] == s[..|s| - 1][|r|..] + [s[|s| - 1]];
      r
    else s
  }

  /**
   * r is what trimming s leaves when the kept slice starts at index i: only
   * whitespace is cut off on either side, and r neither starts nor ends with
   * whitespace.
   */
  ghost predicate TrimmedAt(r: string, s: string, i: int) {
    0 <= i <= |s| - |r| && s[i..i + |r|] == r && AllWhitespace(s[..i]) && AllWhitespace(s[i + |r|..])
    && (r == [] || (!IsWhitespace(r[0]) && !IsWhitespace(r[|r| - 1])))
  }

  /** r is a trimming of s. */
  ghost predicate IsTrimOf(r: string, s: string) {
    exists i :: TrimmedAt(r, s, i)
  }

  /** String.prototype.trim. */
  function Trim(s: string): (r: string)
    ensures IsTrimOf(r, s)
    ensures r == [] <==> AllWhitespace(s)
  {
    var t := TrimStart(s);
    var r := TrimEnd(t);
    var i := |s| - |t|;
    assert s[i..i + |r|] == r && s[i + |r|..] == t[|r|..];
    assert TrimmedAt(r, s, i);
    assert r == [] ==> AllWhitespace(s) by {
      if r == [] {
        assert t == [];
        assert s[..i] == s;
      }
    }
    r
  }

  /** Two slices of s that both start after whitespace only, at a non-whitespace character, start at the same index. */
  lemma SameStart(s: string, i: int, j: int)
    requires 0 <= i < |s| && 0 <= j < |s|
    requires AllWhitespace(s[..i]) && AllWhitespace(s[..j])
    requires !IsWhitespace(s[i]) && !IsWhitespace(s[j])
    ensures i == j
  {
  }

  /** Two slices of s that both end before whitespace only, at a non-whitespace character, end at the same index. */
  lemma SameEnd(s: string, i: int, j: int)
    requires 0 < i <= |s| && 0 < j <= |s|
    requires AllWhitespace(s[i..]) && AllWhitespace(s[j..])
    requires !IsWhitespace(s[i - 1]) && !IsWhitespace(s[j - 1])
    ensures i == j
  {
  }

  /** An empty trimming means s is all whitespace. */
  lemma EmptyTrim(s: string, i: int)
    requires TrimmedAt([], s, i)
    ensures AllWhitespace(s)
  {
    forall k | 0 <= k < |s| ensures IsWhitespace(s[k]) {
      if k < i { assert s[k] == s[..i][k]; } else { assert s[k] == s[i..][k - i]; }
    }
  }

  /** A non-empty trimming means s is not all whitespace. */
  lemma NonEmptyTrim(r: string, s: string, i: int)
    requires TrimmedAt(r, s, i) && r != []
    ensures !AllWhitespace(s)
  {
    assert r[0] == s[i];
  }

  /** Two non-empty trimmings of the same string are equal. */
  lemma SameTrimming(r: string, t: string, s: string, i: int, j: int)
    requires TrimmedAt(r, s, i) && TrimmedAt(t, s, j) && r != [] && t != []
    ensures r == t
  {
    assert r[0] == s[i] && t[0] == s[j];
    SameStart(s, i, j);
    assert r[|r| - 1] == s[i + |r| - 1] && t[|t| - 1] == s[j + |t| - 1];
    SameEnd(s, i + |r|, j + |t|);
  }

  /** Trim is pinned down by IsTrimOf: any trimming of s is Trim(s). */
  lemma TrimUnique(r: string, s: string)
    requires IsTrimOf(r, s)
    ensures r == Trim(s)
  {
    var t := Trim(s);
    var i :| TrimmedAt(r, s, i);
    var j :| TrimmedAt(t, s, j);
    if r == [] {
      EmptyTrim(s, i);
    } else if t == [] {
      NonEmptyTrim(r, s, i);
    } else {
      SameTrimming(r, t, s, i, j);
    }
  }
}
