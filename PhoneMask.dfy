/**
 * The live phone mask bound to the `input` event of the page form's and the
 * order form's phone fields (both handlers are the same code): every
 * non-digit is removed, one leading country digit `7` (or else `8`) is
 * dropped, and what is left is laid out as `+7 (ddd) ddd-dd-dd`, as far as
 * the digits go. Digits beyond the tenth are discarded.
 */
module PhoneMask {
  import opened Text

  /** `value.replace(/\D/g, '')`: the digits of `s`, in order. */
  function DigitsOf(s: string): (r: string)
    ensures AllDigits(r) && |r| <= |s|
  {
    if s == [] then [] else (if IsDigit(s[0]) then [s[0]] else []) + DigitsOf(s[1..])
  }

  /**
   * Drops one leading `7`; failing that, one leading `8`. Nothing else is
   * removed, so the result is the input or the input without its first digit.
   */
  function StripCountry(d: string): (r: string)
    ensures r == d || (d != [] && r == d[1..])
    ensures r != d <==> d != [] && (d[0] == '7' || d[0] == '8')
  {
    if d != [] && d[0] == '7' then d[1..]
    else if d != [] && d[0] == '8' then d[1..]
    else d
  }

  /**
   * The progressive layout of the national digits `v` behind `+7 `: each
   * group, with its separator, appears once the digits reach into it.
   */
  function Format(v: string): string {
    "+7 " + Group(v, "(", 0, 3) + Group(v, ") ", 3, 6) + Group(v, "-", 6, 8) + Group(v, "-", 8, 10)
  }

  /** `sep + v.substring(lo, hi)` when `v` is longer than `lo`, and nothing otherwise. */
  function Group(v: string, sep: string, lo: nat, hi: nat): string
    requires lo <= hi
  {
    if |v| > lo then sep + Substring(v, lo, hi) else ""
  }

  /** The value an `input` event leaves in the phone field. */
  function Mask(raw: string): (r: string)
    ensures |r| >= 3 && r[..3] == "+7 "
  {
    Format(StripCountry(DigitsOf(raw)))
  }

  /** The national digits the mask keeps: the first ten after the country digit is dropped. */
  function Kept(raw: string): (v: string)
    ensures AllDigits(v) && |v| <= 10
  {
    Substring(StripCountry(DigitsOf(raw)), 0, 10)
  }

  lemma {:induction false} DigitsOfConcat(a: string, b: string)
    ensures DigitsOf(a + b) == DigitsOf(a) + DigitsOf(b)
    decreases |a|
  {
    if a == [] {
      assert a + b == b;
    } else {
      assert (a + b)[1..] == a[1..] + b;
      DigitsOfConcat(a[1..], b);
    }
  }

  lemma {:induction false} DigitsOfDigits(s: string)
    requires AllDigits(s)
    ensures DigitsOf(s) == s
    decreases |s|
  {
    if s != [] {
      DigitsOfDigits(s[1..]);
    }
  }

  /** The digits of a formatted value are the country `7` followed by the first ten national digits. */
  lemma DigitsOfFormat(v: string)
    requires AllDigits(v)
    ensures DigitsOf(Format(v)) == "7" + Substring(v, 0, 10)
  {
    var p0, p1, p2, p3 := Group(v, "(", 0, 3), Group(v, ") ", 3, 6), Group(v, "-", 6, 8), Group(v, "-", 8, 10);
    var head := "+7 ";
    var x1 := head + p0;
    var x2 := x1 + p1;
    var x3 := x2 + p2;
    assert Format(v) == x3 + p3;
    DigitsOfHead();
    DigitsOfConcat(head, p0);
    DigitsOfConcat(x1, p1);
    DigitsOfConcat(x2, p2);
    DigitsOfConcat(x3, p3);
    GroupDigits(v, "(", 0, 3);
    GroupDigits(v, ") ", 3, 6);
    GroupDigits(v, "-", 6, 8);
    GroupDigits(v, "-", 8, 10);
    var d0, d1, d2, d3 := DigitsOf(p0), DigitsOf(p1), DigitsOf(p2), DigitsOf(p3);
    GroupsCover("7", v, d0, d1, d2, d3);
    assert DigitsOf(Format(v)) == "7" + d0 + d1 + d2 + d3;
  }

  lemma {:induction false} DigitsOfNone(s: string)
    requires forall i :: 0 <= i < |s| ==> !IsDigit(s[i])
    ensures DigitsOf(s) == []
    decreases |s|
  {
    if s != [] {
      DigitsOfNone(s[1..]);
    }
  }

  lemma DigitsOfHead()
    ensures DigitsOf("+7 ") == "7"
  {
    assert "+7 "[1..] == "7 ";
    assert "7 "[1..] == " ";
    assert " "[1..] == "";
  }

  /** The four groups' digits together, behind a head `h`, are `h` and the first ten digits. */
  lemma GroupsCover(h: string, v: string, d0: string, d1: string, d2: string, d3: string)
    requires d0 == (if |v| > 0 then Substring(v, 0, 3) else [])
    requires d1 == (if |v| > 3 then Substring(v, 3, 6) else [])
    requires d2 == (if |v| > 6 then Substring(v, 6, 8) else [])
    requires d3 == (if |v| > 8 then Substring(v, 8, 10) else [])
    ensures h + d0 + d1 + d2 + d3 == h + Substring(v, 0, 10)
  {
    if |v| >= 10 {
      assert v[0..3] + v[3..6] + v[6..8] + v[8..10] == v[..10];
    } else if |v| > 8 {
      assert v[0..3] + v[3..6] + v[6..8] + v[8..] == v;
    } else if |v| > 6 {
      assert v[0..3] + v[3..6] + v[6..] == v;
    } else if |v| > 3 {
      assert v[0..3] + v[3..] == v;
    }
  }

  lemma GroupDigits(v: string, sep: string, lo: nat, hi: nat)
    requires AllDigits(v) && lo <= hi
    requires forall i :: 0 <= i < |sep| ==> !IsDigit(sep[i])
    ensures DigitsOf(Group(v, sep, lo, hi)) == if |v| > lo then Substring(v, lo, hi) else []
  {
    if |v| > lo {
      var sub := Substring(v, lo, hi);
      assert AllDigits(sub) by {
        forall i | 0 <= i < |sub| ensures IsDigit(sub[i]) {
          assert sub[i] == v[lo + i];
        }
      }
      DigitsOfConcat(sep, sub);
      DigitsOfDigits(sub);
      DigitsOfNone(sep);
    }
  }

  /** The mask keeps at most ten national digits behind the country `7`. */
  lemma MaskDigits(raw: string)
    ensures DigitsOf(Mask(raw)) == "7" + Kept(raw)
    ensures |DigitsOf(Mask(raw))| <= 11
  {
    DigitsOfFormat(StripCountry(DigitsOf(raw)));
  }

  /** Only the first ten national digits shape the layout. */
  lemma FormatKept(v: string)
    ensures Format(Substring(v, 0, 10)) == Format(v)
  {
    var w := Substring(v, 0, 10);
    if |v| > 10 {
      assert w == v[..10];
      assert Substring(w, 0, 3) == Substring(v, 0, 3);
      assert Substring(w, 3, 6) == Substring(v, 3, 6);
      assert Substring(w, 6, 8) == Substring(v, 6, 8);
      assert Substring(w, 8, 10) == Substring(v, 8, 10);
    } else {
      assert w == v;
    }
  }

  /**
   * Masking the mask's own output changes nothing, so the repeated `input`
   * events that follow each keystroke leave the field stable.
   */
  lemma MaskIdempotent(raw: string)
    ensures Mask(Mask(raw)) == Mask(raw)
  {
    var v := StripCountry(DigitsOf(raw));
    MaskDigits(raw);
    assert StripCountry("7" + Kept(raw)) == Kept(raw);
    FormatKept(v);
  }

  /** The complete layout `+7 (abc) def-gh-ij` of four digit groups. */
  function Complete(area: string, first: string, second: string, third: string): string {
    "+7 (" + area + ") " + first + "-" + second + "-" + third
  }

  /** With ten national digits or more the value is the complete `+7 (ddd) ddd-dd-dd`. */
  lemma MaskComplete(raw: string)
    requires |StripCountry(DigitsOf(raw))| >= 10
    ensures var v := StripCountry(DigitsOf(raw));
      Mask(raw) == Complete(v[0..3], v[3..6], v[6..8], v[8..10])
    ensures |Mask(raw)| == 18
  {
    var v := StripCountry(DigitsOf(raw));
    assert Group(v, "(", 0, 3) == "(" + v[0..3];
    assert Group(v, ") ", 3, 6) == ") " + v[3..6];
    assert Group(v, "-", 6, 8) == "-" + v[6..8];
    assert Group(v, "-", 8, 10) == "-" + v[8..10];
  }

  /** With fewer than ten national digits the value is shorter than the complete layout. */
  lemma MaskPartialIsShort(raw: string)
    requires |StripCountry(DigitsOf(raw))| < 10
    ensures |Mask(raw)| < 18
  {
  }

  /** The worked example: a number typed with the trunk prefix `8`. */
  lemma MaskExample(raw: string)
    requires raw == "89161234567"
    ensures Mask(raw) == "+7 (916) 123-45-67"
  {
    DigitsOfDigits(raw);
    var v := raw[1..];
    assert StripCountry(DigitsOf(raw)) == v;
    MaskComplete(raw);
    assert v[0..3] == [raw[1], raw[2], raw[3]] == "916";
    assert v[3..6] == [raw[4], raw[5], raw[6]] == "123";
    assert v[6..8] == [raw[7], raw[8]] == "45";
    assert v[8..10] == [raw[9], raw[10]] == "67";
    assert Complete("916", "123", "45", "67") == "+7 (916) 123-45-67";
  }
}
