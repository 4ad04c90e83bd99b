/**
 * The string operations the organizer relies on: `str.lower()`, the `in`
 * substring test, `os.path.splitext` and `str(n)` for counters.
 */
module Text {

  /** `lower()` on one character; only the ASCII letters are mapped. */
  function LowerChar(c: char): char {
    if 'A' <= c <= 'Z' then (c as int - 'A' as int + 'a' as int) as char else c
  }

  /** `str.lower()`: upper-case ASCII letters become lower case, every other character stays. */
  function Lower(s: string): (r: string)
    ensures |r| == |s|
    ensures forall i :: 0 <= i < |r| ==> !('A' <= r[i] <= 'Z')
    ensures forall i :: 0 <= i < |s| && 'A' <= s[i] <= 'Z' ==> r[i] as int == s[i] as int + 32
    ensures forall i :: 0 <= i < |s| && !('A' <= s[i] <= 'Z') ==> r[i] == s[i]
  {
    seq(|s|, i requires 0 <= i < |s| => LowerChar(s[i]))
  }

  lemma LowerIdempotent(s: string)
    ensures Lower(Lower(s)) == Lower(s)
  {
  }

  lemma LowerConcat(a: string, b: string)
    ensures Lower(a + b) == Lower(a) + Lower(b)
  {
  }

  /** `needle` occurs in `hay` starting at index `i`. */
  predicate OccursAt(hay: string, needle: string, i: int) {
    0 <= i && i + |needle| <= |hay| && hay[i..i + |needle|] == needle
  }

  /** An occurrence is at the front, or is an occurrence in the tail shifted by one. */
  lemma OccursStep(hay: string, needle: string)
    ensures (exists i :: OccursAt(hay, needle, i)) <==>
            needle <= hay || (hay != [] && exists i :: OccursAt(hay[1..], needle, i))
  {
    if needle <= hay {
      assert OccursAt(hay, needle, 0);
    }
    if hay != [] {
      if exists i :: OccursAt(hay, needle, i) {
        var i :| OccursAt(hay, needle, i);
        if i > 0 {
          assert hay[1..][i - 1..i - 1 + |needle|] == hay[i..i + |needle|];
          assert OccursAt(hay[1..], needle, i - 1);
        } else {
          assert needle <= hay;
        }
      }
      if exists i :: OccursAt(hay[1..], needle, i) {
        var i :| OccursAt(hay[1..], needle, i);
        assert hay[1..][i..i + |needle|] == hay[i + 1..i + 1 + |needle|];
        assert OccursAt(hay, needle, i + 1);
      }
    } else {
      if exists i :: OccursAt(hay, needle, i) {
        var i :| OccursAt(hay, needle, i);
        assert needle == [];
      }
    }
  }

  /** Python's `needle in hay`: some contiguous slice of `hay` equals `needle`. */
  predicate Contains(hay: string, needle: string): (b: bool)
    ensures b <==> exists i :: OccursAt(hay, needle, i)
  {
    OccursStep(hay, needle);
    needle <= hay || (hay != [] && Contains(hay[1..], needle))
  }

  /** The index of the last `c` in `s`, or -1 (`str.rfind`). */
  function RFind(s: string, c: char): (r: int)
    ensures -1 <= r < |s|
    ensures r >= 0 ==> s[r] == c
    ensures forall i :: r < i < |s| ==> s[i] != c
  {
    if s == [] then -1
    else if s[|s| - 1] == c then |s| - 1
    else RFind(s[..|s| - 1], c)
  }

  predicate AllDots(s: string) {
    forall i :: 0 <= i < |s| ==> s[i] == '.'
  }

  /**
   * `os.path.splitext` on a bare file name (no directory separators): the
   * extension runs from the last dot to the end, unless only dots precede
   * that dot, in which case there is no extension (".bashrc", "..a").
   */
  function SplitExt(name: string): (r: (string, string))
    ensures r.0 + r.1 == name
    ensures r.1 != "" ==> r.1[0] == '.' && '.' !in r.1[1..] && !AllDots(r.0)
    ensures r.1 == "" <==>
            forall i, j :: 0 <= i < j < |name| && name[j] == '.' ==> name[i] == '.'
  {
    var dot := RFind(name, '.');
    if dot >= 0 && !AllDots(name[..dot]) then
      assert forall k :: 1 <= k < |name[dot..]| ==> name[dot..][k] == name[dot + k];
      (name[..dot], name[dot..])
    else
      assert name[..|name|] == name;
      (name, "")
  }

  /** A name ending in `_`, digits and an extension splits off that extension. */
  lemma SplitTaggedExt(base: string, digits: string, ext: string)
    requires IsDigits(digits) && ext != "" && ext[0] == '.' && '.' !in ext[1..]
    ensures SplitExt(base + "_" + digits + ext).1 == ext
  {
    var tagged := base + "_" + digits + ext;
    var p := |base| + 1 + |digits|;
    forall i | p < i < |tagged|
      ensures tagged[i] != '.'
    {
      assert tagged[i] == ext[1..][i - p - 1];
    }
    assert tagged[p] == '.';
    assert RFind(tagged, '.') == p;
    assert !AllDots(tagged[..p]) by {
      assert tagged[..p][|base|] == '_';
    }
    assert tagged[p..] == ext;
  }

  /** A name without an extension gains none from `_` and digits. */
  lemma SplitTaggedNoExt(name: string, digits: string)
    requires IsDigits(digits) && SplitExt(name).1 == ""
    ensures SplitExt(name + "_" + digits).1 == ""
  {
    var tagged := name + "_" + digits;
    assert forall m :: |name| < m < |tagged| ==> tagged[m] == digits[m - |name| - 1];
    forall i, j | 0 <= i < j < |tagged| && tagged[j] == '.'
      ensures tagged[i] == '.'
    {
      assert tagged[j] == name[j] && tagged[i] == name[i];
    }
  }

  /**
   * Inserting `_` and a run of digits between the base and the extension
   * keeps the extension: `splitext(base + "_" + digits + ext)` still yields `ext`.
   */
  lemma SplitExtTagged(name: string, digits: string)
    requires IsDigits(digits)
    ensures SplitExt(SplitExt(name).0 + "_" + digits + SplitExt(name).1).1 == SplitExt(name).1
  {
    var base, ext := SplitExt(name).0, SplitExt(name).1;
    if ext != "" {
      SplitTaggedExt(base, digits, ext);
    } else {
      assert base + "_" + digits + ext == name + "_" + digits;
      SplitTaggedNoExt(name, digits);
    }
  }

  function DigitChar(d: nat): char
    requires d < 10
  {
    ('0' as int + d) as char
  }

  predicate IsDigits(s: string) {
    forall i :: 0 <= i < |s| ==> '0' <= s[i] <= '9'
  }

  /** `str(n)` for a natural number: its decimal digits, no leading zero. */
  function Decimal(n: nat): (s: string)
    ensures |s| >= 1 && IsDigits(s)
    ensures |s| > 1 ==> s[0] != '0'
  {
    if n < 10 then [DigitChar(n)] else Decimal(n / 10) + [DigitChar(n % 10)]
  }

  /** The number a string of decimal digits denotes. */
  function DecimalValue(s: string): nat
    requires IsDigits(s)
  {
    if s == [] then 0 else DecimalValue(s[..|s| - 1]) * 10 + (s[|s| - 1] as int - '0' as int)
  }

  lemma {:induction false} DecimalRoundTrip(n: nat)
    ensures DecimalValue(Decimal(n)) == n
  {
    if n >= 10 {
      DecimalRoundTrip(n / 10);
      var s := Decimal(n);
      assert s[..|s| - 1] == Decimal(n / 10);
    }
  }

  /** Distinct numbers have distinct decimal forms. */
  lemma DecimalInjective(m: nat, n: nat)
    requires Decimal(m) == Decimal(n)
    ensures m == n
  {
    DecimalRoundTrip(m);
    DecimalRoundTrip(n);
  }
}
