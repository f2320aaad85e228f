/** The password policy: a loop that sets four flags, against its quantified meaning. */
module PasswordPolicy {
  import opened Text

  /** The character tables of Go's `unicode` package, as far as the policy asks them;
      `isSpecial` stands for "punctuation or symbol". */
  datatype RuneTables = RuneTables(
    isUpper: char -> bool, isLower: char -> bool, isDigit: char -> bool, isSpecial: char -> bool)

  const MIN_LENGTH := 12
  const MAX_LENGTH := 128

  /** The number of bytes of the UTF-8 encoding; Go's len counts these, not characters. */
  function Utf8Length(s: string): nat {
    if s == "" then 0
    else
      var n := s[|s| - 1] as int;
      Utf8Length(s[..|s| - 1]) + (if n < 0x80 then 1 else if n < 0x800 then 2 else if n < 0x10000 then 3 else 4)
  }

  /** The count adds up over the characters, and each takes what its code point needs (section 3 of RFC 3629). */
  lemma {:induction false} Utf8LengthExact(s: string, t: string, c: char)
    ensures Utf8Length(s + t) == Utf8Length(s) + Utf8Length(t)
    ensures c as int <= 0x7F ==> Utf8Length([c]) == 1
    ensures 0x80 <= c as int <= 0x7FF ==> Utf8Length([c]) == 2
    ensures 0x800 <= c as int <= 0xFFFF ==> Utf8Length([c]) == 3
    ensures 0x10000 <= c as int ==> Utf8Length([c]) == 4
  {
    if t == "" {
      assert s + t == s;
    } else {
      Utf8LengthExact(s, t[..|t| - 1], c);
      assert (s + t)[..|s + t| - 1] == s + t[..|t| - 1];
    }
  }

  /** Trimmed, of 12 to 128 bytes, with a character of each kind; a character counts for the first kind it is. */
  ghost predicate MeetsPolicy(t: RuneTables, p: string) {
    && Trimmed(p)
    && 12 <= Utf8Length(p) <= 128
    && (exists r :: r in p && t.isUpper(r))
    && (exists r :: r in p && t.isLower(r) && !t.isUpper(r))
    && (exists r :: r in p && t.isDigit(r) && !t.isLower(r) && !t.isUpper(r))
    && (exists r :: r in p && t.isSpecial(r) && !t.isDigit(r) && !t.isLower(r) && !t.isUpper(r))
  }

  method ValidatePasswordPolicy(t: RuneTables, password: string) returns (ok: bool)
    ensures ok <==> MeetsPolicy(t, password)
  {
    TrimIsTrimmed(password);
    if Trim(password) != password {
      return false;
    }
    if Utf8Length(password) < MIN_LENGTH || Utf8Length(password) > MAX_LENGTH {
      return false;
    }
    var hasUpper, hasLower, hasDigit, hasSpecial := false, false, false, false;
    for i := 0 to |password|
      invariant hasUpper <==> exists r :: r in password[..i] && t.isUpper(r)
      invariant hasLower <==> exists r :: r in password[..i] && t.isLower(r) && !t.isUpper(r)
      invariant hasDigit <==> exists r :: r in password[..i] && t.isDigit(r) && !t.isLower(r) && !t.isUpper(r)
      invariant hasSpecial <==>
        exists r :: r in password[..i] && t.isSpecial(r) && !t.isDigit(r) && !t.isLower(r) && !t.isUpper(r)
    {
      var r := password[i];
      assert password[..i + 1] == password[..i] + [r];
      if t.isUpper(r) {
        hasUpper := true;
      } else if t.isLower(r) {
        hasLower := true;
      } else if t.isDigit(r) {
        hasDigit := true;
      } else if t.isSpecial(r) {
        hasSpecial := true;
      }
    }
    assert password[..|password|] == password;
    return hasUpper && hasLower && hasDigit && hasSpecial;
  }
}
