/**
 * The client-name rule of a booking request: strip surrounding whitespace,
 * as Python's `str.strip()` does, and refuse a name that is then empty.
 */
module Validation {

  /** The characters Python's `str.strip()` removes when given no argument. */
  predicate IsSpace(c: char) {
    var n := c as int;
    || 0x09 <= n <= 0x0D || 0x1C <= n <= 0x20
    || n == 0x85 || n == 0xA0 || n == 0x1680
    || 0x2000 <= n <= 0x200A
    || n == 0x2028 || n == 0x2029 || n == 0x202F || n == 0x205F || n == 0x3000
  }

  /** The length of the whitespace run that starts `s`. */
  function LeadingSpace(s: string): (k: nat)
    ensures k <= |s|
    ensures forall i | 0 <= i < k :: IsSpace(s[i])
    ensures k < |s| ==> !IsSpace(s[k])
  {
    if s == [] || !IsSpace(s[0]) then 0
    else
      var k := LeadingSpace(s[1..]);
      assert forall i | 1 <= i < k + 1 :: s[i] == s[1..][i - 1];
      1 + k
  }

  /** The length of the whitespace run that ends `s`. */
  function TrailingSpace(s: string): (k: nat)
    ensures k <= |s|
    ensures forall i | |s| - k <= i < |s| :: IsSpace(s[i])
    ensures k < |s| ==> !IsSpace(s[|s| - 1 - k])
  {
    if s == [] || !IsSpace(s[|s| - 1]) then 0
    else
      var init := s[..|s| - 1];
      var k := TrailingSpace(init);
      assert forall i | |init| - k <= i < |init| :: s[i] == init[i];
      1 + k
  }

  /** `r` sits at offset `a` of `s`, and everything of `s` around it is whitespace. */
  ghost predicate SpaceAround(s: string, a: int, r: string) {
    && 0 <= a <= a + |r| <= |s|
    && s[a..a + |r|] == r
    && (forall i | 0 <= i < a :: IsSpace(s[i]))
    && (forall i | a + |r| <= i < |s| :: IsSpace(s[i]))
  }

  /**
   * `s` without its leading and trailing whitespace: a slice of `s` that neither
   * starts nor ends with whitespace, with only whitespace cut away around it.
   */
  function Strip(s: string): (r: string)
    ensures |r| <= |s|
    ensures r != [] ==> !IsSpace(r[0]) && !IsSpace(r[|r| - 1])
    ensures r == [] <==> forall i | 0 <= i < |s| :: IsSpace(s[i])
    ensures exists a :: SpaceAround(s, a, r)
  {
    var a := LeadingSpace(s);
    var rest := s[a..];
    var r := rest[..|rest| - TrailingSpace(rest)];
    StripCutsOnlySpace(s, a, rest, r);
    StripKeepsInnerEnds(s, a, rest, r);
    r
  }

  lemma StripCutsOnlySpace(s: string, a: nat, rest: string, r: string)
    requires a == LeadingSpace(s) && rest == s[a..] && r == rest[..|rest| - TrailingSpace(rest)]
    ensures SpaceAround(s, a, r)
  {
    var k := TrailingSpace(rest);
    assert s[a..a + |r|] == r;
    forall i | a + |r| <= i < |s| ensures IsSpace(s[i]) {
      assert s[i] == rest[i - a];
      assert |rest| - k <= i - a < |rest|;
    }
  }

  lemma StripKeepsInnerEnds(s: string, a: nat, rest: string, r: string)
    requires a == LeadingSpace(s) && rest == s[a..] && r == rest[..|rest| - TrailingSpace(rest)]
    ensures r != [] ==> !IsSpace(r[0]) && !IsSpace(r[|r| - 1])
    ensures r == [] <==> forall i | 0 <= i < |s| :: IsSpace(s[i])
  {
    if r != [] {
      assert r[0] == s[a];
      assert r[|r| - 1] == rest[|rest| - 1 - TrailingSpace(rest)];
    }
    if a < |s| {
      assert !IsSpace(rest[0]);
    }
  }

  /** Stripping twice strips nothing more. */
  lemma StripIdempotent(s: string)
    ensures Strip(Strip(s)) == Strip(s)
  {
    var r := Strip(s);
    if r != [] {
      assert LeadingSpace(r) == 0;
      assert TrailingSpace(r) == 0;
    }
  }

  datatype NameCheck = Accepted(name: string) | EmptyName

  /** The client name as the booking request stores it, or the "cannot be empty" refusal. */
  function ValidateName(v: string): (r: NameCheck)
    ensures r == EmptyName <==> forall i | 0 <= i < |v| :: IsSpace(v[i])
    ensures r.Accepted? ==> r.name != [] && !IsSpace(r.name[0]) && !IsSpace(r.name[|r.name| - 1])
    ensures r.Accepted? ==> r.name == Strip(v) && exists a :: SpaceAround(v, a, r.name)
  {
    var stripped := Strip(v);
    if stripped == [] then EmptyName else Accepted(stripped)
  }

  /** A name the validator accepted passes it again unchanged. */
  lemma ValidatedNameIsStable(v: string)
    requires ValidateName(v).Accepted?
    ensures ValidateName(ValidateName(v).name) == ValidateName(v)
  {
    StripIdempotent(v);
  }

  /** An empty name is refused; surrounding blanks are cut from an accepted one. */
  lemma NameExamples()
    ensures ValidateName("") == EmptyName
    ensures ValidateName(" \t ") == EmptyName
    ensures ValidateName("  John Doe ") == Accepted("John Doe")
  {
    assert ValidateName(" \t ") == EmptyName by {
      assert forall i | 0 <= i < 3 :: IsSpace(" \t "[i]);
    }
    var s := "  John Doe ";
    assert LeadingSpace(s) == 2 by {
      assert LeadingSpace(s[2..]) == 0;
      assert LeadingSpace(s[1..]) == 1;
    }
    var rest := s[2..];
    assert TrailingSpace(rest) == 1 by {
      assert TrailingSpace(rest[..|rest| - 1]) == 0;
    }
    assert rest[..|rest| - 1] == "John Doe";
  }
}
