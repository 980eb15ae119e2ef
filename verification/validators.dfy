/** The three regular expressions the superadmin's admin form is checked
    with (server.js:531-547 and 574). Each comes in two forms: the match
    the regular expression performs, spelled out as JavaScript's regex
    semantics define it, and the plain rule its error message states; a
    lemma shows the two agree. `RegExp.prototype.test` turns a missing
    field into the text "undefined", which no rule accepts. */
module Validators {
  import opened JsStrings

  /** `\w` without the `u` flag: ASCII letters, digits and '_'. */
  predicate IsWordChar(c: char)
  {
    ('a' <= c <= 'z') || ('A' <= c <= 'Z') || ('0' <= c <= '9') || c == '_'
  }

  /** `\d`. */
  predicate IsDigit(c: char)
  {
    '0' <= c <= '9'
  }

  /** The characters `.` does not match. */
  predicate IsLineTerminator(c: char)
  {
    c == '\n' || c == '\r' || c == '\U{2028}' || c == '\U{2029}'
  }

  // ---------------------------------------------------------------- Gmail address

  /** The class `[\w.%+-]`. */
  predicate IsLocalChar(c: char)
  {
    IsWordChar(c) || c == '.' || c == '%' || c == '+' || c == '-'
  }

  predicate AllLocal(s: string)
  {
    s == [] || (IsLocalChar(s[0]) && AllLocal(s[1..]))
  }

  const GmailSuffix: string := "@gmail.com"

  /** `/^[\w.%+-]+@gmail\.com$/i`: some non-empty prefix of local-part
      characters followed by "@gmail.com" in any ASCII case. */
  ghost predicate GmailRegexMatches(s: string)
  {
    exists k :: 1 <= k <= |s| && AllLocal(s[..k]) && EqualsIgnoringCase(s[k..], GmailSuffix)
  }

  /** The address ends in "@gmail.com" (any case) after at least one
      local-part character. */
  predicate IsGmail(s: string)
  {
    |s| > |GmailSuffix| && AllLocal(s[..|s| - |GmailSuffix|]) && EqualsIgnoringCase(s[|s| - |GmailSuffix|..], GmailSuffix)
  }

  lemma {:induction false} AllLocalHasNoAt(s: string)
    requires AllLocal(s)
    ensures '@' !in s
  {
    if s != [] {
      AllLocalHasNoAt(s[1..]);
      assert s == [s[0]] + s[1..];
    }
  }

  /** The regular expression accepts exactly the Gmail addresses; such an
      address has one '@', the first character of its "@gmail.com" tail. */
  lemma GmailIff(s: string)
    ensures GmailRegexMatches(s) <==> IsGmail(s)
    ensures IsGmail(s) ==> s[|s| - |GmailSuffix|] == '@' && '@' !in s[..|s| - |GmailSuffix|]
  {
    var k := |s| - |GmailSuffix|;
    if IsGmail(s) {
      assert 1 <= k <= |s| && AllLocal(s[..k]) && EqualsIgnoringCase(s[k..], GmailSuffix);
      EqualsIgnoringCaseIff(s[k..], GmailSuffix);
      assert AsciiLower(s[k..][0]) == '@';
      assert s[k..][0] == s[k];
      AllLocalHasNoAt(s[..k]);
    }
    if GmailRegexMatches(s) {
      var j :| 1 <= j <= |s| && AllLocal(s[..j]) && EqualsIgnoringCase(s[j..], GmailSuffix);
      assert j == k;
    }
  }

  // ---------------------------------------------------------------- phone number

  predicate AllDigits(s: string)
  {
    s == [] || (IsDigit(s[0]) && AllDigits(s[1..]))
  }

  /** `/^09\d{9}$/`: "09" and then exactly nine digits. */
  predicate PhoneRegexMatches(s: string)
  {
    |s| >= 2 && s[0] == '0' && s[1] == '9' && |s[2..]| == 9 && AllDigits(s[2..])
  }

  /** "11 digits starting with 09". */
  predicate IsPhone(s: string)
  {
    |s| == 11 && s[0] == '0' && s[1] == '9' && forall i :: 0 <= i < |s| ==> IsDigit(s[i])
  }

  lemma {:induction false} AllDigitsIff(s: string)
    ensures AllDigits(s) <==> forall i :: 0 <= i < |s| ==> IsDigit(s[i])
  {
    if s != [] {
      AllDigitsIff(s[1..]);
      assert forall i :: 0 < i < |s| ==> s[i] == s[1..][i - 1];
    }
  }

  /** The regular expression accepts exactly the 11-digit numbers starting with "09". */
  lemma PhoneIff(s: string)
    ensures PhoneRegexMatches(s) <==> IsPhone(s)
  {
    if |s| >= 2 {
      AllDigitsIff(s[2..]);
      assert forall i :: 2 <= i < |s| ==> s[i] == s[2..][i - 2];
    }
  }

  // ---------------------------------------------------------------- password strength

  /** The character classes the four lookaheads look for. */
  datatype Requirement = Lowercase | Uppercase | Digit | Special

  /** `[a-z]`, `[A-Z]`, `\d` and `[\W_]` (anything but an ASCII letter or digit). */
  predicate Meets(c: char, req: Requirement)
  {
    match req
    case Lowercase => 'a' <= c <= 'z'
    case Uppercase => 'A' <= c <= 'Z'
    case Digit => IsDigit(c)
    case Special => !IsWordChar(c) || c == '_'
  }

  /** `(?=.*X)` at the start: a character of the class occurs with no line
      terminator before it (`.*` stops at one). */
  predicate Lookahead(s: string, req: Requirement)
  {
    s != [] && (Meets(s[0], req) || (!IsLineTerminator(s[0]) && Lookahead(s[1..], req)))
  }

  predicate NoLineTerminator(s: string)
  {
    s == [] || (!IsLineTerminator(s[0]) && NoLineTerminator(s[1..]))
  }

  /** `/^(?=.*[a-z])(?=.*[A-Z])(?=.*\d)(?=.*[\W_]).{8,}$/`. */
  predicate PasswordRegexMatches(s: string)
  {
    && Lookahead(s, Lowercase) && Lookahead(s, Uppercase) && Lookahead(s, Digit) && Lookahead(s, Special)
    && |s| >= 8 && NoLineTerminator(s)
  }

  /** Some character of `s` meets the requirement. */
  predicate Contains(s: string, req: Requirement)
  {
    exists i :: 0 <= i < |s| && Meets(s[i], req)
  }

  /** "at least 8 characters long, contain uppercase, lowercase, number,
      and special character", on a single line. */
  predicate IsStrongPassword(s: string)
  {
    && |s| >= 8 && (forall i :: 0 <= i < |s| ==> !IsLineTerminator(s[i]))
    && Contains(s, Lowercase) && Contains(s, Uppercase) && Contains(s, Digit) && Contains(s, Special)
  }

  lemma {:induction false} NoLineTerminatorIff(s: string)
    ensures NoLineTerminator(s) <==> forall i :: 0 <= i < |s| ==> !IsLineTerminator(s[i])
  {
    if s != [] {
      NoLineTerminatorIff(s[1..]);
      assert forall i :: 0 < i < |s| ==> s[i] == s[1..][i - 1];
    }
  }

  /** On a single-line string a lookahead finds its class exactly when the
      class occurs somewhere. */
  lemma {:induction false} LookaheadOnOneLine(s: string, req: Requirement)
    requires NoLineTerminator(s)
    ensures Lookahead(s, req) <==> Contains(s, req)
  {
    if s != [] {
      LookaheadOnOneLine(s[1..], req);
      if Contains(s, req) && !Meets(s[0], req) {
        var i :| 0 <= i < |s| && Meets(s[i], req);
        assert s[1..][i - 1] == s[i];
      }
      if Contains(s[1..], req) {
        var i :| 0 <= i < |s[1..]| && Meets(s[1..][i], req);
        assert s[i + 1] == s[1..][i];
      }
    }
  }

  /** The regular expression accepts exactly the passwords its message describes. */
  lemma StrongPasswordIff(s: string)
    ensures PasswordRegexMatches(s) <==> IsStrongPassword(s)
  {
    NoLineTerminatorIff(s);
    if NoLineTerminator(s) {
      LookaheadOnOneLine(s, Lowercase);
      LookaheadOnOneLine(s, Uppercase);
      LookaheadOnOneLine(s, Digit);
      LookaheadOnOneLine(s, Special);
    }
  }

  /** A field left out reaches the regex as the text "undefined", which fails all three rules. */
  lemma UndefinedFailsEveryRule()
    ensures !IsGmail("undefined") && !IsPhone("undefined") && !IsStrongPassword("undefined")
  {
    assert !Contains("undefined", Uppercase) by {
      forall i | 0 <= i < |"undefined"| ensures !Meets("undefined"[i], Uppercase) {
      }
    }
  }
}
