/** The two regular expressions of the profile form, `/^0\d{9}$/` and
    `/^.{3,}@.+\..+$/`, written as left-to-right scanners and checked against
    declarative descriptions of the strings they accept. Neither pattern has a
    flag, so `^`/`$` anchor the whole string, `\d` is an ASCII digit, and the
    patterns run over UTF-16 code units: `.` matches any single code unit
    except a line terminator, so a character above U+FFFF (two units) counts
    twice towards a repetition such as `.{3,}`. */
module Patterns {

  predicate IsDigit(c: char) {
    '0' <= c <= '9'
  }

  /** Characters `.` refuses to match without the `s` flag. */
  predicate IsLineTerminator(c: char) {
    c == '\n' || c == '\r' || c == '\U{2028}' || c == '\U{2029}'
  }

  // ---------------------------------------------------------------------
  // Phone number: /^0\d{9}$/

  /** `\d{n}$`: exactly `n` characters remain, all digits. */
  function MatchDigits(s: string, n: nat): (b: bool)
    ensures b <==> |s| == n && forall i :: 0 <= i < |s| ==> IsDigit(s[i])
  {
    if n == 0 then s == []
    else |s| > 0 && IsDigit(s[0]) && MatchDigits(s[1..], n - 1)
  }

  /** The strings the phone pattern accepts, described by their shape. A
      character above U+FFFF is never a digit, so counting characters or
      code units gives the same answer here. */
  predicate PhoneShape(s: string) {
    |s| == 10 && s[0] == '0' && forall i :: 0 <= i < |s| ==> IsDigit(s[i])
  }

  /** `validatePhoneNumber`: the literal `0` followed by nine digits. */
  function ValidPhone(s: string): (b: bool)
    ensures b <==> PhoneShape(s)
  {
    |s| > 0 && s[0] == '0' && MatchDigits(s[1..], 9)
  }

  // ---------------------------------------------------------------------
  // E-mail: /^.{3,}@.+\..+$/

  predicate NoLineTerminator(s: string) {
    forall i :: 0 <= i < |s| ==> !IsLineTerminator(s[i])
  }

  /** Number of UTF-16 code units one character occupies. */
  function Width(c: char): nat {
    if c as int >= 0x1_0000 then 2 else 1
  }

  /** Length of `t` in UTF-16 code units. */
  function Units(t: string): nat {
    if t == [] then 0 else Units(t[..|t| - 1]) + Width(t[|t| - 1])
  }

  lemma UnitsStep(s: string, k: nat)
    requires k < |s|
    ensures Units(s[..k + 1]) == Units(s[..k]) + Width(s[k])
  {
    assert s[..k + 1][..k] == s[..k];
  }

  /** Positions `i` of an `@` and `j` of a `.` that split `s` into the
      pattern's four parts: at least three code units, `@`, at least one
      character, `.`, at least one character. */
  predicate SplitsAt(s: string, i: int, j: int) {
    0 <= i && i + 1 < j < |s| - 1 && s[i] == '@' && s[j] == '.' && Units(s[..i]) >= 3
  }

  /** The strings the e-mail pattern accepts, described by their shape. */
  ghost predicate EmailShape(s: string) {
    NoLineTerminator(s) && exists i, j :: SplitsAt(s, i, j)
  }

  /** Index of the first `@` at or after `from` preceded by at least three
      code units, if any; `units` counts the code units before `from`. */
  function FirstAt(s: string, from: nat, units: nat): (r: int)
    requires from <= |s| && units == Units(s[..from])
    decreases |s| - from
    ensures r == -1 || (from <= r < |s| && s[r] == '@' && Units(s[..r]) >= 3)
    ensures forall k :: from <= k < |s| && (r == -1 || k < r) ==> !(s[k] == '@' && Units(s[..k]) >= 3)
  {
    if from == |s| then -1
    else if s[from] == '@' && units >= 3 then from
    else
      UnitsStep(s, from);
      FirstAt(s, from + 1, units + Width(s[from]))
  }

  /** Some `.` lies at an index in `lo .. hi - 1`. */
  function HasDotIn(s: string, lo: nat, hi: int): (b: bool)
    requires hi <= |s|
    decreases hi - lo
    ensures b <==> exists k :: lo <= k < hi && s[k] == '.'
  {
    if lo >= hi then false
    else s[lo] == '.' || HasDotIn(s, lo + 1, hi)
  }

  /** The scan: no line terminator, and after the first `@` that has three
      code units before it, a `.` with at least one character on each side.
      Choosing the first such `@` leaves the widest room for the dot. */
  predicate EmailScan(s: string) {
    NoLineTerminator(s) &&
    var i := FirstAt(s, 0, 0);
    i != -1 && HasDotIn(s, i + 2, |s| - 1)
  }

  /** The scan accepts exactly the strings the pattern describes. */
  lemma EmailScanIffShape(s: string)
    ensures EmailScan(s) <==> EmailShape(s)
  {
    assert s[..0] == [];
    var i := FirstAt(s, 0, 0);
    if EmailScan(s) {
      var j :| i + 2 <= j < |s| - 1 && s[j] == '.';
      assert SplitsAt(s, i, j);
    }
    if EmailShape(s) {
      var i', j' :| SplitsAt(s, i', j');
      assert i != -1 && i <= i';
      assert i + 2 <= j' < |s| - 1 && s[j'] == '.';
    }
  }

  /** `validateEmail`. */
  function ValidEmail(s: string): (b: bool)
    ensures b <==> EmailShape(s)
  {
    EmailScanIffShape(s);
    EmailScan(s)
  }

  /** Accepted addresses; the second has an emoji of two code units before
      the `@`, which counts as two towards `.{3,}`. */
  lemma ExampleEmailsAccepted()
    ensures ValidEmail("a@bc@d.e")
    ensures ValidEmail("\U{1F600}a@b.c")
  {
    var s1 := "a@bc@d.e";
    assert s1[..4] == "a@bc";
    assert Units("a@bc") == 4 by {
      assert "a@bc"[..3] == "a@b" && "a@b"[..2] == "a@" && "a@"[..1] == "a" && "a"[..0] == "";
    }
    assert SplitsAt(s1, 4, 6);
    var s2 := "\U{1F600}a@b.c";
    assert s2[..2] == "\U{1F600}a";
    assert Units("\U{1F600}a") == 3 by {
      assert "\U{1F600}a"[..1] == "\U{1F600}" && "\U{1F600}"[..0] == "";
    }
    assert SplitsAt(s2, 2, 4);
  }

  /** Refused addresses: too short before the `@` (an emoji alone is only
      two code units), and no character between `@` and `.`. */
  lemma ExampleEmailsRefused()
    ensures !ValidEmail("\U{1F600}@b.c")
    ensures !ValidEmail("abc@.e")
  {
    var s1 := "\U{1F600}@b.c";
    assert Units(s1[..1]) == 2 by {
      assert s1[..1] == "\U{1F600}" && "\U{1F600}"[..0] == "";
    }
    assert s1[..0] == [];
    assert forall i, j :: !SplitsAt(s1, i, j);
    assert forall i, j :: !SplitsAt("abc@.e", i, j);
  }
}
