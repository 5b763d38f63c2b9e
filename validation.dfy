/** The `@NotBlank` constraint shared by the request DTO and the entity.
    Hibernate Validator decides it with Java's `String.trim()`, which drops
    every character at or below U+0020 from both ends. */
module Validation {
  import opened Results

  /** `s` without its leading characters at or below U+0020. */
  function TrimStart(s: string): (r: string)
    ensures |r| <= |s| && r == s[|s| - |r|..]
    ensures forall i :: 0 <= i < |s| - |r| ==> s[i] <= ' '
    ensures r != [] ==> r[0] > ' '
  {
    if s != [] && s[0] <= ' ' then TrimStart(s[1..]) else s
  }

  /** `s` without its trailing characters at or below U+0020. */
  function TrimEnd(s: string): (r: string)
    ensures |r| <= |s| && r == s[..|r|]
    ensures forall i :: |r| <= i < |s| ==> s[i] <= ' '
    ensures r != [] ==> r[|r| - 1] > ' '
  {
    if s != [] && s[|s| - 1] <= ' ' then TrimEnd(s[..|s| - 1]) else s
  }

  /** Java's `String.trim()`. */
  function Trim(s: string): string {
    TrimEnd(TrimStart(s))
  }

  /** A string the `@NotBlank` validator rejects: no character above U+0020. */
  predicate IsBlank(s: string) {
    forall i :: 0 <= i < |s| ==> s[i] <= ' '
  }

  /** `@NotBlank` on a nullable string field: present and not blank. */
  predicate NotBlank(o: Option<string>) {
    o.Some? && !IsBlank(o.value)
  }

  /** Hibernate Validator decides `@NotBlank` by `trim().length() > 0`; that is
      exactly the absence of `IsBlank`. */
  lemma TrimDecidesBlank(s: string)
    ensures Trim(s) == [] <==> IsBlank(s)
  {
    var a := TrimStart(s);
    var k := |s| - |a|;
    if !IsBlank(s) {
      var i :| 0 <= i < |s| && s[i] > ' ';
      assert k <= i;
      assert a != [] && a[0] > ' ';
      assert TrimEnd(a) != [];
    }
  }

  /** `@NotBlank` on a nullable field, as Hibernate Validator computes it. */
  lemma NotBlankByTrim(o: Option<string>)
    ensures NotBlank(o) <==> o.Some? && |Trim(o.value)| > 0
  {
    if o.Some? {
      TrimDecidesBlank(o.value);
    }
  }
}
