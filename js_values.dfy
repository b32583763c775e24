/** JavaScript values as they appear in the parsed GeoJSON properties, and
    the parts of `String.prototype.trim` the field resolver depends on. */
module JsValues {

  datatype Option<+T> = None | Some(value: T)

  /** A property value: `null` or a string. A key missing from the property
      map stands for `undefined`; both fail the loose test `v != null`. */
  datatype JsonValue = Null | Str(s: string)

  /** The code points ECMAScript counts as WhiteSpace or LineTerminator,
      which is what `trim` removes at both ends. */
  predicate IsJsWhitespace(c: char) {
    var n := c as int;
    n == 0x09 || n == 0x0A || n == 0x0B || n == 0x0C || n == 0x0D || n == 0x20
    || n == 0xA0 || n == 0x1680 || (0x2000 <= n <= 0x200A)
    || n == 0x2028 || n == 0x2029 || n == 0x202F || n == 0x205F
    || n == 0x3000 || n == 0xFEFF
  }

  /** Drops the leading whitespace: the result is a suffix of `s` that does
      not start with whitespace, and everything cut off is whitespace. */
  function TrimStart(s: string): (r: string)
    ensures |r| <= |s| && r == s[|s| - |r|..]
    ensures r == [] || !IsJsWhitespace(r[0])
    ensures forall i :: 0 <= i < |s| - |r| ==> IsJsWhitespace(s[i])
  {
    if s != [] && IsJsWhitespace(s[0]) then TrimStart(s[1..]) else s
  }

  /** Drops the trailing whitespace: the result is a prefix of `s` that does
      not end with whitespace, and everything cut off is whitespace. */
  function TrimEnd(s: string): (r: string)
    ensures |r| <= |s| && r == s[..|r|]
    ensures r == [] || !IsJsWhitespace(r[|r| - 1])
    ensures forall i :: |r| <= i < |s| ==> IsJsWhitespace(s[i])
  {
    if s != [] && IsJsWhitespace(s[|s| - 1]) then TrimEnd(s[..|s| - 1]) else s
  }

  /** `s.trim()` */
  function Trim(s: string): string {
    TrimEnd(TrimStart(s))
  }

  /** `String(v).trim() === ""` for a string value. */
  predicate IsBlank(s: string) {
    Trim(s) == ""
  }

  /** A string trims to nothing exactly when every character is whitespace;
      in particular the empty string is blank and a blank-free string is
      never empty. */
  lemma BlankIffAllWhitespace(s: string)
    ensures IsBlank(s) <==> forall i :: 0 <= i < |s| ==> IsJsWhitespace(s[i])
  {
    var t := TrimStart(s);
    if t != [] {
      assert s[|s| - |t|] == t[0];
    }
  }
}
