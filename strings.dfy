/**
 * Simple stand-ins for the library string helpers the generator calls:
 * StringUtil.capitalize, FileUtil.getNameWithoutExtension, FileUtilRt.getExtension,
 * NameUtils.sanitizeAsJavaIdentifier, StringUtil.escapeStringCharacters, String.contains
 * and the decimal rendering of an integer in a string template.
 * They work on ASCII only; each comes with the property the generator relies on.
 */
module Strings {

  predicate IsLower(c: char) { 'a' <= c <= 'z' }
  predicate IsUpper(c: char) { 'A' <= c <= 'Z' }
  predicate IsDigit(c: char) { '0' <= c <= '9' }
  predicate IsLetterOrDigit(c: char) { IsLower(c) || IsUpper(c) || IsDigit(c) }

  /** A character that may appear in a Java identifier produced by the generator. */
  predicate IsIdentifierChar(c: char) { IsLetterOrDigit(c) || c == '_' }

  predicate AllIdentifierChars(s: string) {
    forall i :: 0 <= i < |s| ==> IsIdentifierChar(s[i])
  }

  // ---------------------------------------------------------------------------
  // Substring search (Kotlin's String.contains)

  /** s contains p at position i. */
  predicate OccursAt(s: string, p: string, i: nat) {
    i + |p| <= |s| && s[i..i + |p|] == p
  }

  /** Executable substring test, scanning from the left. */
  predicate Contains(s: string, p: string)
    decreases |s|
  {
    |p| <= |s| && (s[..|p|] == p || (|s| > 0 && Contains(s[1..], p)))
  }

  /** Contains agrees with the positional definition of an occurrence. */
  lemma {:induction false} ContainsIffOccurs(s: string, p: string)
    ensures Contains(s, p) <==> exists i: nat :: OccursAt(s, p, i)
    decreases |s|
  {
    if Contains(s, p) {
      if s[..|p|] == p {
        assert OccursAt(s, p, 0);
      } else {
        ContainsIffOccurs(s[1..], p);
        var i: nat :| OccursAt(s[1..], p, i);
        assert s[1..][i..i + |p|] == s[i + 1..i + 1 + |p|];
        assert OccursAt(s, p, i + 1);
      }
    } else {
      forall i: nat | OccursAt(s, p, i) ensures false {
        if i > 0 {
          assert s[1..][i - 1..i - 1 + |p|] == s[i..i + |p|];
          assert OccursAt(s[1..], p, i - 1);
          ContainsIffOccurs(s[1..], p);
        }
      }
    }
  }

  // ---------------------------------------------------------------------------
  // Decimal rendering of a non-negative integer and its inverse

  function DigitChar(d: nat): (c: char)
    requires d < 10
    ensures IsDigit(c)
  {
    ['0', '1', '2', '3', '4', '5', '6', '7', '8', '9'][d]
  }

  function DigitValue(c: char): (d: nat)
    requires IsDigit(c)
    ensures d < 10 && DigitChar(d) == c
  {
    (c as int - '0' as int) as nat
  }

  /** The decimal text of n, without sign or leading zeros. */
  function NatToString(n: nat): (s: string)
    decreases n
  {
    if n < 10 then [DigitChar(n)] else NatToString(n / 10) + [DigitChar(n % 10)]
  }

  /** The value of a string of decimal digits; the empty string reads as 0. */
  function ParseNat(s: string): nat
    requires forall i :: 0 <= i < |s| ==> IsDigit(s[i])
    decreases |s|
  {
    if s == [] then 0 else 10 * ParseNat(s[..|s| - 1]) + DigitValue(s[|s| - 1])
  }

  /** NatToString yields digits only, at least one of them. */
  lemma {:induction false} NatToStringDigits(n: nat)
    ensures |NatToString(n)| >= 1
    ensures forall i :: 0 <= i < |NatToString(n)| ==> IsDigit(NatToString(n)[i])
    decreases n
  {
    if n >= 10 {
      NatToStringDigits(n / 10);
    }
  }

  /** Reading back the decimal text gives the number: distinct indices give distinct texts. */
  lemma {:induction false} ParseNatToString(n: nat)
    ensures forall i :: 0 <= i < |NatToString(n)| ==> IsDigit(NatToString(n)[i])
    ensures ParseNat(NatToString(n)) == n
    decreases n
  {
    NatToStringDigits(n);
    if n >= 10 {
      var s := NatToString(n);
      assert s[..|s| - 1] == NatToString(n / 10);
      ParseNatToString(n / 10);
    }
  }

  lemma NatToStringInjective(m: nat, n: nat)
    ensures NatToString(m) == NatToString(n) ==> m == n
  {
    ParseNatToString(m);
    ParseNatToString(n);
  }

  // ---------------------------------------------------------------------------
  // Capitalisation (StringUtil.capitalize), ASCII letters only

  function UpperCase(c: char): (u: char)
    ensures IsLower(c) ==> IsUpper(u)
    ensures !IsLower(c) ==> u == c
  {
    if IsLower(c) then (c as int - 'a' as int + 'A' as int) as char else c
  }

  /** The first character upper-cased, the rest as it was. */
  function Capitalize(s: string): (r: string)
    ensures |r| == |s|
    ensures |s| > 0 ==> r[0] == UpperCase(s[0]) && r[1..] == s[1..]
  {
    if s == [] then s else [UpperCase(s[0])] + s[1..]
  }

  /** A capitalised name starts with no lower-case letter, and capitalising it again changes nothing. */
  lemma CapitalizeIdempotent(s: string)
    ensures |s| > 0 ==> !IsLower(Capitalize(s)[0])
    ensures Capitalize(Capitalize(s)) == Capitalize(s)
  {
    if |s| > 0 {
      var c := Capitalize(s);
      assert c == [c[0]] + c[1..];
    }
  }

  // ---------------------------------------------------------------------------
  // File name and extension (FileUtil.getNameWithoutExtension, FileUtilRt.getExtension)

  /** Index of the last occurrence of c in s, or -1 when there is none. */
  function LastIndexOf(s: string, c: char): (k: int)
    ensures -1 <= k < |s|
    ensures k >= 0 ==> s[k] == c
    ensures forall j :: k < j < |s| ==> s[j] != c
    decreases |s|
  {
    if s == [] then -1
    else if s[|s| - 1] == c then |s| - 1
    else LastIndexOf(s[..|s| - 1], c)
  }

  /** The text before the last dot, or the whole name when there is no dot. */
  function NameWithoutExtension(name: string): string {
    var k := LastIndexOf(name, '.');
    if k < 0 then name else name[..k]
  }

  /** The text after the last dot, or "" when there is no dot. */
  function Extension(name: string): string {
    var k := LastIndexOf(name, '.');
    if k < 0 then "" else name[k + 1..]
  }

  /** Splitting at the last dot and gluing back gives the name; the extension holds no dot. */
  lemma NameSplitsAtLastDot(name: string)
    ensures '.' in name ==> name == NameWithoutExtension(name) + "." + Extension(name)
    ensures '.' !in name ==> NameWithoutExtension(name) == name && Extension(name) == ""
    ensures '.' !in Extension(name)
  {
    var k := LastIndexOf(name, '.');
    if '.' in name {
      var j :| 0 <= j < |name| && name[j] == '.';
      assert k >= j;
      assert name == name[..k] + "." + name[k + 1..];
    }
    assert forall j :: 0 <= j < |Extension(name)| ==> Extension(name)[j] == name[k + 1 + j];
  }

  // ---------------------------------------------------------------------------
  // NameUtils.sanitizeAsJavaIdentifier: every character that is not a letter or digit becomes '_'

  function Sanitize(s: string): (r: string)
    ensures |r| == |s|
    ensures forall i :: 0 <= i < |s| ==> r[i] == (if IsLetterOrDigit(s[i]) then s[i] else '_')
  {
    seq(|s|, i requires 0 <= i < |s| => if IsLetterOrDigit(s[i]) then s[i] else '_')
  }

  /** The sanitised name consists of identifier characters, and sanitising it again changes nothing. */
  lemma SanitizeIsIdentifier(s: string)
    ensures AllIdentifierChars(Sanitize(s))
    ensures Sanitize(Sanitize(s)) == Sanitize(s)
  {
  }

  // ---------------------------------------------------------------------------
  // StringUtil.escapeStringCharacters, restricted to backslash, quote and three control characters

  function EscapeChar(c: char): string {
    match c
    case '\\' => "\\\\"
    case '"' => "\\\""
    case '\n' => "\\n"
    case '\t' => "\\t"
    case '\r' => "\\r"
    case _ => [c]
  }

  /** Text that can be placed between double quotes in Java source. */
  function Escape(s: string): (r: string)
    decreases |s|
  {
    if s == [] then [] else Escape(s[..|s| - 1]) + EscapeChar(s[|s| - 1])
  }

  /** What a Java compiler reads back from an escaped literal body (left to right). */
  function Unescape(s: string): string
    decreases |s|
  {
    if s == [] then []
    else if s[0] == '\\' && |s| >= 2 then
      (match s[1]
       case 'n' => "\n"
       case 't' => "\t"
       case 'r' => "\r"
       case c => [c]) + Unescape(s[2..])
    else [s[0]] + Unescape(s[1..])
  }

  lemma UnescapeEscapeChar(c: char)
    ensures Unescape(EscapeChar(c)) == [c]
  {
    var e := EscapeChar(c);
    if |e| == 2 {
      assert e[2..] == [];
    } else {
      assert e[1..] == [];
    }
  }

  /** Escaped text is a sequence of complete escape units, so unescaping splits at unit boundaries. */
  ghost predicate Units(s: string)
    decreases |s|
  {
    s == [] || (s[0] != '\\' && Units(s[1..])) || (|s| >= 2 && s[0] == '\\' && Units(s[2..]))
  }

  lemma {:induction false} EscapeCharUnits(c: char)
    ensures Units(EscapeChar(c))
  {
    var e := EscapeChar(c);
    if |e| == 2 {
      assert e[2..] == [];
    } else {
      assert e[1..] == [];
    }
  }

  lemma {:induction false} UnitsAppend(a: string, b: string)
    requires Units(a) && Units(b)
    ensures Units(a + b)
    decreases |a|
  {
    if a != [] {
      if a[0] != '\\' && Units(a[1..]) {
        UnitsAppend(a[1..], b);
        assert (a + b)[0] == a[0] && (a + b)[1..] == a[1..] + b;
      } else {
        UnitsAppend(a[2..], b);
        assert (a + b)[0] == a[0] && (a + b)[2..] == a[2..] + b;
      }
    } else {
      assert a + b == b;
    }
  }

  lemma {:induction false} EscapeUnits(s: string)
    ensures Units(Escape(s))
    decreases |s|
  {
    if s != [] {
      EscapeUnits(s[..|s| - 1]);
      EscapeCharUnits(s[|s| - 1]);
      UnitsAppend(Escape(s[..|s| - 1]), EscapeChar(s[|s| - 1]));
    }
  }

  lemma {:induction false} UnescapeSplit(a: string, b: string)
    requires Units(a)
    ensures Unescape(a + b) == Unescape(a) + Unescape(b)
    decreases |a|
  {
    if a == [] {
      assert a + b == b;
    } else if a[0] != '\\' {
      assert (a + b)[0] == a[0] && (a + b)[1..] == a[1..] + b;
      UnescapeSplit(a[1..], b);
    } else {
      assert (a + b)[..2] == a[..2] && (a + b)[2..] == a[2..] + b;
      UnescapeSplit(a[2..], b);
    }
  }

  /** Escaping is undone by the compiler: the literal denotes exactly the original path. */
  lemma {:induction false} UnescapeEscape(s: string)
    ensures Unescape(Escape(s)) == s
    decreases |s|
  {
    if s != [] {
      var p := s[..|s| - 1];
      EscapeUnits(p);
      UnescapeSplit(Escape(p), EscapeChar(s[|s| - 1]));
      UnescapeEscape(p);
      UnescapeEscapeChar(s[|s| - 1]);
    }
  }
}
