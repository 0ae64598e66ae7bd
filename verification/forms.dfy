/** The fields and validators of `NameForm` (hello.py:47-50). */
module Forms {
  import opened Ascii

  /** The submitted values of the `name` and `role` fields; a missing field arrives as "". */
  datatype NameForm = NameForm(name: string, role: string)

  /** The (key, label) choices of the `role` select field. */
  const RoleChoices: seq<(string, string)> := [("user", "User"), ("mod", "Moderator"), ("admin", "Administrator")]

  /** The role names that capitalising a choice key can produce. */
  const ChoiceRoleNames: set<string> := {"User", "Mod", "Admin"}

  /**
   * The characters Python's `str.isspace` accepts, which `str.strip()` removes:
   * the ASCII controls 9-13 and 28-31, the space, and the Unicode separators.
   */
  predicate IsWhitespace(c: char) {
    var n := c as int;
    || 9 <= n <= 13 || 28 <= n <= 32
    || n == 0x85 || n == 0xA0 || n == 0x1680
    || 0x2000 <= n <= 0x200A
    || n == 0x2028 || n == 0x2029 || n == 0x202F || n == 0x205F || n == 0x3000
  }

  /** Where `Strip` cuts on the left: the end of the whitespace run that starts at `lo`. */
  function LeadingEnd(s: string, lo: nat): (n: nat)
    requires lo <= |s|
    ensures lo <= n <= |s|
    ensures forall i :: lo <= i < n ==> IsWhitespace(s[i])
    ensures n < |s| ==> !IsWhitespace(s[n])
    decreases |s| - lo
  {
    if lo < |s| && IsWhitespace(s[lo]) then LeadingEnd(s, lo + 1) else lo
  }

  /** Where `Strip` cuts on the right: the start of the whitespace run that ends at `hi`, looking no further left than `lo`. */
  function TrailingStart(s: string, lo: nat, hi: nat): (m: nat)
    requires lo <= hi <= |s|
    ensures lo <= m <= hi
    ensures forall i :: m <= i < hi ==> IsWhitespace(s[i])
    ensures m > lo ==> !IsWhitespace(s[m - 1])
    decreases hi
  {
    if hi > lo && IsWhitespace(s[hi - 1]) then TrailingStart(s, lo, hi - 1) else hi
  }

  /**
   * `str.strip()`: the slice of the string between its leading and its
   * trailing whitespace, which neither starts nor ends with whitespace.
   */
  function Strip(s: string): (r: string)
    ensures |r| <= |s|
    ensures |r| > 0 ==> !IsWhitespace(r[0]) && !IsWhitespace(r[|r| - 1])
    ensures LeadingEnd(s, 0) + |r| <= |s| && r == s[LeadingEnd(s, 0)..LeadingEnd(s, 0) + |r|]
    ensures forall i :: 0 <= i < LeadingEnd(s, 0) ==> IsWhitespace(s[i])
    ensures forall i :: LeadingEnd(s, 0) + |r| <= i < |s| ==> IsWhitespace(s[i])
  {
    var n := LeadingEnd(s, 0);
    var m := TrailingStart(s, n, |s|);
    s[n..m]
  }

  /** `strip()` empties a string exactly when every character of it is whitespace. */
  lemma StripEmptiesOnlyWhitespace(s: string)
    ensures Strip(s) == [] <==> forall i :: 0 <= i < |s| ==> IsWhitespace(s[i])
  {
  }

  /** A select field accepts only one of its choice keys. */
  predicate IsChoiceKey(k: string)
    ensures IsChoiceKey(k) <==> k in {"user", "mod", "admin"}
  {
    assert RoleChoices[0].0 == "user" && RoleChoices[1].0 == "mod" && RoleChoices[2].0 == "admin";
    exists i :: 0 <= i < |RoleChoices| && RoleChoices[i].0 == k
  }

  /** WTForms' `DataRequired` on a string: the value is not empty once stripped. */
  predicate DataRequired(s: string) {
    Strip(s) != []
  }

  /**
   * What `validate_on_submit` checks of the two fields: the name has a
   * character other than whitespace, and the role is one of the three keys.
   */
  predicate Validates(f: NameForm)
    ensures Validates(f) <==>
      && (exists i :: 0 <= i < |f.name| && !IsWhitespace(f.name[i]))
      && f.role in {"user", "mod", "admin"}
  {
    StripEmptiesOnlyWhitespace(f.name);
    DataRequired(f.name) && IsChoiceKey(f.role)
  }

  /**
   * Capitalising the key of a choice gives User, Mod or Admin (the stored name
   * is "Mod", not the label "Moderator"), and each of the three is reached.
   */
  lemma CapitalizedChoiceKeys(k: string)
    ensures IsChoiceKey(k) ==> Capitalize(k) in ChoiceRoleNames
    ensures forall n :: n in ChoiceRoleNames ==> exists i :: 0 <= i < |RoleChoices| && Capitalize(RoleChoices[i].0) == n
  {
    assert Capitalize("user") == "User";
    assert Capitalize("mod") == "Mod";
    assert Capitalize("admin") == "Admin";
    assert RoleChoices[0].0 == "user" && RoleChoices[1].0 == "mod" && RoleChoices[2].0 == "admin";
  }
}
