/**
 * The frontend's chart colours: `randomRGBColor` writes `rgb(r, g, b)`
 * and `backgroundRGBColor` turns such a colour into its half-transparent
 * `rgba` form with two first-occurrence string replacements.
 */
module Colors {
  import opened Wrappers

  // ----- first-occurrence search and replace -----

  /** `pat` occurs in `s` at position `k`. */
  predicate OccursAt(s: string, pat: string, k: nat) {
    k + |pat| <= |s| && s[k..k + |pat|] == pat
  }

  /** The first position at or after `k` where `pat` occurs. */
  function IndexFrom(s: string, pat: string, k: nat): Option<nat>
    decreases |s| - k
  {
    if k + |pat| > |s| then None
    else if s[k..k + |pat|] == pat then Some(k)
    else IndexFrom(s, pat, k + 1)
  }

  /** The first position where `pat` occurs, as `String.prototype.indexOf` finds it. */
  function IndexOf(s: string, pat: string): Option<nat> {
    IndexFrom(s, pat, 0)
  }

  /** The search from `k` finds the first occurrence at or after `k`, and finds nothing only when there is none. */
  lemma {:induction false} IndexFromFirst(s: string, pat: string, k: nat)
    ensures IndexFrom(s, pat, k).Some? ==>
      var i := IndexFrom(s, pat, k).value;
      k <= i && OccursAt(s, pat, i) && forall j :: k <= j < i ==> !OccursAt(s, pat, j)
    ensures IndexFrom(s, pat, k).None? ==> forall j :: k <= j ==> !OccursAt(s, pat, j)
    decreases |s| - k
  {
    if k + |pat| <= |s| && s[k..k + |pat|] != pat {
      IndexFromFirst(s, pat, k + 1);
    }
  }

  lemma IndexOfFirst(s: string, pat: string)
    ensures IndexOf(s, pat).Some? ==>
      var i := IndexOf(s, pat).value;
      OccursAt(s, pat, i) && forall j :: 0 <= j < i ==> !OccursAt(s, pat, j)
    ensures IndexOf(s, pat).None? ==> forall j :: 0 <= j ==> !OccursAt(s, pat, j)
  {
    IndexFromFirst(s, pat, 0);
  }

  /** A single-character search over a prefix without that character lands right after the prefix. */
  lemma {:induction false} IndexOfCharAfter(t: string, c: char, u: string)
    requires c !in t
    ensures IndexOf(t + [c] + u, [c]) == Some(|t|)
  {
    var s := t + [c] + u;
    forall j | 0 <= j < |t| ensures !OccursAt(s, [c], j) {
      assert s[j..j + 1][0] == t[j];
    }
    assert OccursAt(s, [c], |t|) by {
      assert s[|t|..|t| + 1] == [c];
    }
    SearchSkips(s, [c], 0, |t|);
  }

  /** A search skips the positions without an occurrence. */
  lemma {:induction false} SearchSkips(s: string, pat: string, k: nat, i: nat)
    requires k <= i && OccursAt(s, pat, i) && forall j :: k <= j < i ==> !OccursAt(s, pat, j)
    ensures IndexFrom(s, pat, k) == Some(i)
    decreases i - k
  {
    if k < i {
      assert !OccursAt(s, pat, k);
      SearchSkips(s, pat, k + 1, i);
    }
  }

  /** `String.prototype.replace` with a string pattern: only the first occurrence is replaced. */
  function ReplaceFirst(s: string, pat: string, rep: string): string {
    match IndexOf(s, pat)
    case None => s
    case Some(i) => if i + |pat| <= |s| then s[..i] + rep + s[i + |pat|..] else s
  }

  /**
   * What `replace` does: without an occurrence nothing changes; otherwise
   * the text before the first occurrence and everything after it, later
   * occurrences included, are kept around the replacement.
   */
  lemma ReplaceFirstSpec(s: string, pat: string, rep: string)
    ensures (forall j :: 0 <= j ==> !OccursAt(s, pat, j)) ==> ReplaceFirst(s, pat, rep) == s
    ensures forall i: nat :: OccursAt(s, pat, i) && (forall j :: 0 <= j < i ==> !OccursAt(s, pat, j)) ==>
      ReplaceFirst(s, pat, rep) == s[..i] + rep + s[i + |pat|..]
  {
    IndexOfFirst(s, pat);
    if IndexOf(s, pat).Some? {
      var k := IndexOf(s, pat).value;
      forall i: nat | OccursAt(s, pat, i) && (forall j :: 0 <= j < i ==> !OccursAt(s, pat, j))
        ensures i == k
      {
      }
    }
  }

  // ----- the colour strings -----

  function DigitChar(d: nat): (c: char)
    requires d < 10
    ensures '0' <= c <= '9' && c as int - '0' as int == d
  {
    ('0' as int + d) as char
  }

  /** A number written in decimal without leading zeros, as a template literal writes an integer. */
  function Dec(n: nat): string
    decreases n
  {
    if n < 10 then [DigitChar(n)] else Dec(n / 10) + [DigitChar(n % 10)]
  }

  /** The number a string of decimal digits denotes. */
  function DigitsValue(s: string): nat
    requires forall i :: 0 <= i < |s| ==> '0' <= s[i] <= '9'
    decreases |s|
  {
    if s == [] then 0 else DigitsValue(s[..|s| - 1]) * 10 + (s[|s| - 1] as int - '0' as int)
  }

  /** `Dec` writes only digits, and never an empty string. */
  lemma {:induction false} DecDigits(n: nat)
    ensures Dec(n) != [] && forall i :: 0 <= i < |Dec(n)| ==> '0' <= Dec(n)[i] <= '9'
    decreases n
  {
    if n >= 10 {
      DecDigits(n / 10);
      var s := Dec(n);
      forall i | 0 <= i < |s| - 1 ensures '0' <= s[i] <= '9' {
        assert s[i] == Dec(n / 10)[i];
      }
    }
  }

  /** Reading the digits of `Dec(n)` back gives `n`. */
  lemma {:induction false} DecValue(n: nat)
    ensures forall i :: 0 <= i < |Dec(n)| ==> '0' <= Dec(n)[i] <= '9'
    ensures DigitsValue(Dec(n)) == n
    decreases n
  {
    DecDigits(n);
    if n >= 10 {
      DecValue(n / 10);
      var s := Dec(n);
      assert s[..|s| - 1] == Dec(n / 10);
    }
  }

  /** The `rgb(${r}, ${g}, ${b})` string of `randomRGBColor`. */
  function RgbString(r: nat, g: nat, b: nat): string {
    "rgb(" + Dec(r) + ", " + Dec(g) + ", " + Dec(b) + ")"
  }

  /** The same colour at half opacity. */
  function RgbaString(r: nat, g: nat, b: nat): string {
    "rgba(" + Dec(r) + ", " + Dec(g) + ", " + Dec(b) + ", 0.5)"
  }

  /**
   * `randomRGBColor` with the three `Math.random()` draws passed in: each
   * component is the draw scaled to 256 and rounded down.
   */
  function RandomRGBColor(x: real, y: real, z: real): (c: string)
    requires 0.0 <= x < 1.0 && 0.0 <= y < 1.0 && 0.0 <= z < 1.0
    ensures exists r: nat, g: nat, b: nat :: r < 256 && g < 256 && b < 256 && c == RgbString(r, g, b)
  {
    var r, g, b := (x * 256.0).Floor, (y * 256.0).Floor, (z * 256.0).Floor;
    assert r < 256 && g < 256 && b < 256;
    RgbString(r, g, b)
  }

  /** `backgroundRGBColor`: "rgb" becomes "rgba", then the first ")" becomes ", 0.5)". */
  function BackgroundRGBColor(color: string): string {
    ReplaceFirst(ReplaceFirst(color, "rgb", "rgba"), ")", ", 0.5)")
  }

  // ----- properties -----

  /** Decimal digits and the separators never hold a closing parenthesis. */
  lemma NoParenthesis(r: nat, g: nat, b: nat)
    ensures ')' !in "rgba(" + Dec(r) + ", " + Dec(g) + ", " + Dec(b)
  {
    DecDigits(r);
    DecDigits(g);
    DecDigits(b);
    var t := "rgba(" + Dec(r) + ", " + Dec(g) + ", " + Dec(b);
    forall i | 0 <= i < |t| ensures t[i] != ')' {
      if 5 <= i < 5 + |Dec(r)| {
        assert t[i] == Dec(r)[i - 5];
      } else if 5 + |Dec(r)| + 2 <= i < 5 + |Dec(r)| + 2 + |Dec(g)| {
        assert t[i] == Dec(g)[i - 5 - |Dec(r)| - 2];
      } else if 5 + |Dec(r)| + 2 + |Dec(g)| + 2 <= i {
        assert t[i] == Dec(b)[i - 5 - |Dec(r)| - 2 - |Dec(g)| - 2];
      }
    }
  }

  /** A colour written by `randomRGBColor` comes back as the same colour at half opacity. */
  lemma BackgroundOfRgb(r: nat, g: nat, b: nat)
    ensures BackgroundRGBColor(RgbString(r, g, b)) == RgbaString(r, g, b)
  {
    var s := RgbString(r, g, b);
    assert OccursAt(s, "rgb", 0) by {
      assert s[0..3] == "rgb";
    }
    SearchSkips(s, "rgb", 0, 0);
    var t := "rgba(" + Dec(r) + ", " + Dec(g) + ", " + Dec(b);
    assert ReplaceFirst(s, "rgb", "rgba") == t + [')'] + [] by {
      assert s[3..] == "(" + Dec(r) + ", " + Dec(g) + ", " + Dec(b) + ")";
    }
    NoParenthesis(r, g, b);
    IndexOfCharAfter(t, ')', []);
    assert (t + [')'] + [])[|t| + 1..] == [];
  }

  /** A string holding neither "rgb" nor ")" is returned as it is. */
  lemma BackgroundUnchanged(color: string)
    requires forall j :: 0 <= j ==> !OccursAt(color, "rgb", j)
    requires ')' !in color
    ensures BackgroundRGBColor(color) == color
  {
    ReplaceFirstSpec(color, "rgb", "rgba");
    forall j | 0 <= j ensures !OccursAt(color, ")", j) {
      if j + 1 <= |color| {
        assert color[j..j + 1][0] == color[j];
      }
    }
    ReplaceFirstSpec(color, ")", ", 0.5)");
  }

  /** Replacing an occurrence changes the length by the difference of the two texts. */
  lemma ReplaceFirstLength(s: string, pat: string, rep: string)
    requires exists j :: OccursAt(s, pat, j)
    ensures |ReplaceFirst(s, pat, rep)| == |s| - |pat| + |rep|
  {
    IndexOfFirst(s, pat);
  }

  /** With both "rgb" and a ")" present, the result is six characters longer: "a" and ", 0.5" are added. */
  lemma BackgroundLength(color: string)
    requires exists j :: OccursAt(color, "rgb", j)
    requires ')' in color
    ensures |BackgroundRGBColor(color)| == |color| + 6
  {
    ReplaceFirstLength(color, "rgb", "rgba");
    var once := ReplaceFirst(color, "rgb", "rgba");
    IndexOfFirst(color, "rgb");
    var i := IndexOf(color, "rgb").value;
    var p :| 0 <= p < |color| && color[p] == ')';
    var q := if p < i then p else p + 1;
    assert once == color[..i] + "rgba" + color[i + 3..];
    if p < i {
      assert once[q] == color[p];
    } else {
      assert color[i..i + 3] == "rgb";
      forall k | i <= k < i + 3 ensures color[k] != ')' {
        assert color[k] == color[i..i + 3][k - i];
      }
      assert once[q] == color[p];
    }
    assert OccursAt(once, ")", q) by {
      assert once[q..q + 1] == [')'];
    }
    ReplaceFirstLength(once, ")", ", 0.5)");
  }
}
