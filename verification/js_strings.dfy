/** The few JavaScript string built-ins the salon rules rely on:
    `String.prototype.trim`, `String.prototype.split` with a one-character
    separator, and ASCII case folding (used by the `i` regex flag and by
    SQLite's case-insensitive identifiers). */
module JsStrings {

  /** WhiteSpace and LineTerminator code points, the set `trim` removes
      (ECMAScript 2023, sections 12.2, 12.3 and 22.1.3.32). */
  predicate IsJsSpace(c: char)
  {
    || c == ' ' || c == '\t' || c == '\n' || c == '\r'
    || c == '\U{000B}' || c == '\U{000C}' || c == '\U{00A0}' || c == '\U{FEFF}'
    || c == '\U{1680}' || ('\U{2000}' <= c <= '\U{200A}')
    || c == '\U{2028}' || c == '\U{2029}' || c == '\U{202F}' || c == '\U{205F}' || c == '\U{3000}'
  }

  /** Drops leading white space: the result is a suffix of `s` and what was
      dropped is all white space. */
  function TrimStart(s: string): (r: string)
    ensures |r| <= |s| && r == s[|s| - |r|..]
    ensures forall i :: 0 <= i < |s| - |r| ==> IsJsSpace(s[i])
    ensures r != [] ==> !IsJsSpace(r[0])
  {
    if s != [] && IsJsSpace(s[0]) then TrimStart(s[1..]) else s
  }

  /** Drops trailing white space: the result is a prefix of `s` and what was
      dropped is all white space. */
  function TrimEnd(s: string): (r: string)
    ensures |r| <= |s| && r == s[..|r|]
    ensures forall i :: |r| <= i < |s| ==> IsJsSpace(s[i])
    ensures r != [] ==> !IsJsSpace(r[|r| - 1])
  {
    if s != [] && IsJsSpace(s[|s| - 1]) then TrimEnd(s[..|s| - 1]) else s
  }

  /** `s.trim()`: the result is the slice of `s` that starts after the
      leading white space; everything cut off on either side is white
      space, and none is left at either end. */
  function Trim(s: string): (r: string)
    ensures var i := |s| - |TrimStart(s)|;
      && i + |r| <= |s| && r == s[i..i + |r|]
      && (forall j :: 0 <= j < i ==> IsJsSpace(s[j]))
      && (forall j :: i + |r| <= j < |s| ==> IsJsSpace(s[j]))
    ensures r != [] ==> !IsJsSpace(r[0]) && !IsJsSpace(r[|r| - 1])
  {
    var t := TrimStart(s);
    TrimmedSuffix(s, |s| - |t|, TrimEnd(t));
    TrimEnd(t)
  }

  /** A prefix of the suffix `s[i..]` that leaves only white space behind
      is the slice `s[i..i + |r|]`, and leaves only white space behind in `s`. */
  lemma TrimmedSuffix(s: string, i: nat, r: string)
    requires i <= |s| && |r| <= |s| - i && r == s[i..][..|r|]
    requires forall j :: |r| <= j < |s| - i ==> IsJsSpace(s[i..][j])
    ensures i + |r| <= |s| && r == s[i..i + |r|]
    ensures forall j :: i + |r| <= j < |s| ==> IsJsSpace(s[j])
  {
    forall j | i + |r| <= j < |s|
      ensures IsJsSpace(s[j])
    {
      assert s[j] == s[i..][j - i];
    }
  }

  /** Trimming a string with no white space at either end gives it back. */
  lemma TrimKeepsTrimmed(s: string)
    requires s != [] ==> !IsJsSpace(s[0]) && !IsJsSpace(s[|s| - 1])
    ensures Trim(s) == s
  {
  }

  /** The pieces joined back with the separator between consecutive pieces. */
  function Join(pieces: seq<string>, sep: char): string
    requires |pieces| >= 1
  {
    if |pieces| == 1 then pieces[0] else pieces[0] + [sep] + Join(pieces[1..], sep)
  }

  /** `s.split(sep)` for a one-character separator: at least one piece, no
      piece holds the separator, and joining the pieces gives `s` back. */
  function Split(s: string, sep: char): (r: seq<string>)
    ensures |r| >= 1
    ensures forall i :: 0 <= i < |r| ==> sep !in r[i]
    ensures Join(r, sep) == s
  {
    if s == [] then [""]
    else
      var rest := Split(s[1..], sep);
      if s[0] == sep then
        assert Join([""] + rest, sep) == [sep] + Join(rest, sep) by {
          assert ([""] + rest)[1..] == rest;
        }
        assert s == [s[0]] + s[1..];
        [""] + rest
      else
        var r := [[s[0]] + rest[0]] + rest[1..];
        assert Join(r, sep) == s by {
          assert r[1..] == rest[1..];
          assert s == [s[0]] + s[1..];
        }
        r
  }

  /** A string without the separator splits into itself alone. */
  lemma {:induction false} SplitWithoutSeparator(s: string, sep: char)
    requires sep !in s
    ensures Split(s, sep) == [s]
  {
    if s != [] {
      assert sep !in s[1..] by {
        forall i | 0 <= i < |s[1..]| ensures s[1..][i] != sep { assert s[1..][i] == s[i + 1]; }
      }
      SplitWithoutSeparator(s[1..], sep);
      assert [s[0]] + s[1..] == s;
    }
  }

  /** A string with exactly one separator, at index k, splits into the two
      pieces around it. */
  lemma {:induction false} SplitAtOnlySeparator(s: string, sep: char, k: nat)
    requires k < |s| && s[k] == sep
    requires sep !in s[..k] && sep !in s[k + 1..]
    ensures Split(s, sep) == [s[..k], s[k + 1..]]
  {
    if k == 0 {
      SplitWithoutSeparator(s[1..], sep);
    } else {
      assert s[1..][..k - 1] == s[1..k];
      assert s[1..][k..] == s[k + 1..];
      assert sep !in s[1..k] by {
        forall i | 0 <= i < k - 1 ensures s[1..k][i] != sep { assert s[1..k][i] == s[..k][i + 1]; }
      }
      SplitAtOnlySeparator(s[1..], sep, k - 1);
      assert [s[0]] + s[1..k] == s[..k];
    }
  }

  /** ASCII lower-casing, the folding both the `i` regex flag (for ASCII
      letters) and SQLite's identifier comparison apply. */
  function AsciiLower(c: char): char
  {
    if 'A' <= c <= 'Z' then (c as int + 32) as char else c
  }

  /** Equal after ASCII lower-casing, compared character by character. */
  predicate EqualsIgnoringCase(a: string, b: string)
  {
    |a| == |b| && (a == [] || (AsciiLower(a[0]) == AsciiLower(b[0]) && EqualsIgnoringCase(a[1..], b[1..])))
  }

  /** The character-by-character comparison agrees with comparing the
      lower-cased strings position by position. */
  lemma {:induction false} EqualsIgnoringCaseIff(a: string, b: string)
    ensures EqualsIgnoringCase(a, b) <==> |a| == |b| && forall i :: 0 <= i < |a| ==> AsciiLower(a[i]) == AsciiLower(b[i])
  {
    if |a| == |b| && a != [] {
      EqualsIgnoringCaseIff(a[1..], b[1..]);
      if forall i :: 0 <= i < |a| ==> AsciiLower(a[i]) == AsciiLower(b[i]) {
        assert forall i :: 0 <= i < |a| - 1 ==> AsciiLower(a[1..][i]) == AsciiLower(b[1..][i]) by {
          forall i | 0 <= i < |a| - 1 ensures AsciiLower(a[1..][i]) == AsciiLower(b[1..][i]) {
            assert a[1..][i] == a[i + 1] && b[1..][i] == b[i + 1];
          }
        }
      }
      if EqualsIgnoringCase(a, b) {
        forall i | 0 <= i < |a| ensures AsciiLower(a[i]) == AsciiLower(b[i]) {
          if i > 0 {
            assert a[1..][i - 1] == a[i] && b[1..][i - 1] == b[i];
          }
        }
      }
    }
  }

  lemma EqualsIgnoringCaseReflexive(s: string)
    ensures EqualsIgnoringCase(s, s)
  {
  }
}
