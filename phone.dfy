/** The phone field's `input` handler (script.js:94-125): it rewrites whatever
    was typed into the Chilean mobile display form `+56 9 XXXX XXXX`. */
module PhoneFormat {
  import opened Text

  /** The characters of s that satisfy keep, in order. */
  function Filter(s: string, keep: char -> bool): (r: string)
    ensures |r| <= |s|
    ensures forall k :: 0 <= k < |r| ==> keep(r[k])
  {
    if s == [] then [] else (if keep(s[0]) then [s[0]] else []) + Filter(s[1..], keep)
  }

  lemma {:induction false} FilterConcat(a: string, b: string, keep: char -> bool)
    ensures Filter(a + b, keep) == Filter(a, keep) + Filter(b, keep)
  {
    if a == [] {
      assert a + b == b;
    } else {
      var h := if keep(a[0]) then [a[0]] else [];
      assert (a + b)[0] == a[0] && (a + b)[1..] == a[1..] + b;
      FilterConcat(a[1..], b, keep);
      calc {
        Filter(a + b, keep);
        h + Filter(a[1..] + b, keep);
        h + (Filter(a[1..], keep) + Filter(b, keep));
        (h + Filter(a[1..], keep)) + Filter(b, keep);
      }
    }
  }

  /** Filtering keeps a string all of whose characters pass. */
  lemma {:induction false} FilterAll(s: string, keep: char -> bool)
    requires forall k :: 0 <= k < |s| ==> keep(s[k])
    ensures Filter(s, keep) == s
  {
    if s != [] {
      FilterAll(s[1..], keep);
    }
  }

  predicate IsDialable(c: char) {
    IsDigit(c) || c == '+'
  }

  /** `value.replace(/[^\d+]/g, '')` (script.js:95). */
  function KeepDialable(s: string): (r: string)
    ensures forall k :: 0 <= k < |r| ==> IsDialable(r[k])
  {
    Filter(s, IsDialable)
  }

  /** `value.replace(/\D/g, '')` (script.js:111). */
  function Digits(s: string): (r: string)
    ensures AllDigits(r)
  {
    Filter(s, IsDigit)
  }

  /** Removing what is neither a digit nor `+` keeps every digit. */
  lemma {:induction false} DigitsOfDialable(s: string)
    ensures Digits(KeepDialable(s)) == Digits(s)
  {
    if s != [] {
      DigitsOfDialable(s[1..]);
      var head := if IsDialable(s[0]) then [s[0]] else [];
      FilterConcat(head, Filter(s[1..], IsDialable), IsDigit);
    }
  }

  /** The country-code step (script.js:98-107). */
  function AddCountryCode(v: string): string {
    if |v| > 0 && !StartsWith(v, "+") then
      if StartsWith(v, "56") then "+" + v
      else if StartsWith(v, "9") && |v| <= 9 then "+56" + v
      else if !StartsWith(v, "0") then "+56" + v
      else v
    else v
  }

  /** The digit string D that the layout works on (script.js:95-111). */
  function CountryDigits(raw: string): (d: string)
    ensures AllDigits(d)
  {
    Digits(AddCountryCode(KeepDialable(raw)))
  }

  /** The most digits the display form holds: 56, 9 and eight more. */
  const MaxDigits: nat := 11

  /** The digits the display form keeps: the first MaxDigits. */
  function Significant(d: string): (r: string)
    ensures |r| <= MaxDigits && |r| <= |d| && r == d[..|r|]
    ensures |d| <= MaxDigits ==> r == d
    ensures |d| >= MaxDigits ==> |r| == MaxDigits
  {
    if |d| <= MaxDigits then d else d[..MaxDigits]
  }

  /** Grouping by digit count (script.js:110-123); `slice` clamps at the end of d. */
  function Layout(d: string): string {
    if |d| == 0 then ""
    else if |d| <= 2 then "+" + d
    else if |d| <= 3 then "+" + d[..2] + " " + d[2..]
    else if |d| <= 7 then "+" + d[..2] + " " + d[2..3] + " " + d[3..]
    else "+" + d[..2] + " " + d[2..3] + " " + d[3..7] + " " + d[7..|Significant(d)|]
  }

  /** The display value the `input` handler writes back (script.js:95-125). */
  function Format(raw: string): string {
    Layout(CountryDigits(raw))
  }

  /** The prefixing rule: a stripped value that is empty or already starts with
      `+` is left alone, one that starts with `56` only gains a `+`, one that
      starts with `0` gains nothing, and every other gains the digits 56. The
      branch for a leading 9 with at most nine characters agrees with the last. */
  lemma PrefixedDigits(raw: string)
    ensures var v := KeepDialable(raw);
      CountryDigits(raw) ==
        if v == [] || v[0] == '+' || v[0] == '0' || StartsWith(v, "56") then Digits(raw)
        else "56" + Digits(raw)
    ensures var v := KeepDialable(raw);
      v != [] && v[0] != '0' ==> AddCountryCode(v)[0] == '+'
  {
    var v := KeepDialable(raw);
    DigitsOfDialable(raw);
    if v != [] && v[0] != '+' {
      FilterConcat("+", v, IsDigit);
      FilterConcat("+56", v, IsDigit);
      assert Digits("+") == [];
      assert Digits("+56") == "56" by {
        assert "+56"[1..] == "56" && "56"[1..] == "6" && "6"[1..] == [];
      }
    }
  }

  /** Characters that may appear in a display value. */
  predicate IsDisplayChar(c: char) {
    IsDigit(c) || c == '+' || c == ' '
  }

  /** Characters a filter drops may separate two pieces without changing the result. */
  lemma FilterJoin(x: string, sep: string, y: string, keep: char -> bool)
    requires Filter(sep, keep) == []
    ensures Filter(x + sep + y, keep) == Filter(x, keep) + Filter(y, keep)
  {
    FilterConcat(x + sep, y, keep);
    FilterConcat(x, sep, keep);
  }

  /** What the layout does to a digit string: the result is empty exactly when
      d is, otherwise starts with `+`, has no whitespace at either end, holds
      only digits, `+` and spaces, and what the next keystroke keeps of it is
      `+` followed by the first eleven digits of d. */
  lemma LayoutKeepsDigits(d: string)
    requires AllDigits(d)
    ensures Layout(d) == [] <==> d == []
    ensures Layout(d) != [] ==> Layout(d)[0] == '+'
    ensures Trimmed(Layout(d))
    ensures AllDisplay(Layout(d))
    ensures KeepDialable(Layout(d)) == if d == [] then [] else "+" + Significant(d)
  {
    var s := Significant(d);
    LayoutOfSignificant(d);
    assert Filter(" ", IsDialable) == [];
    assert Filter("+", IsDialable) == "+";
    if d == [] {
    } else if |s| <= 2 {
      FilterAll(s, IsDialable);
      FilterConcat("+", s, IsDialable);
    } else if |s| <= 3 {
      LayoutThree(s);
    } else if |s| <= 7 {
      LayoutSeven(s);
    } else {
      LayoutEleven(s);
    }
  }

  predicate AllDisplay(s: string) {
    forall k :: 0 <= k < |s| ==> IsDisplayChar(s[k])
  }

  /** Appending a space and a group of digits to a display value that starts
      with `+`: the result still starts with `+`, ends with a digit, and the
      next keystroke keeps the group. */
  lemma AppendGroup(x: string, group: string)
    requires x != [] && x[0] == '+' && AllDisplay(x)
    requires group != [] && AllDigits(group)
    ensures var y := x + " " + group;
      y[0] == '+' && IsDigit(y[|y| - 1]) && AllDisplay(y)
      && KeepDialable(y) == KeepDialable(x) + group
  {
    var y := x + " " + group;
    assert y[|y| - 1] == group[|group| - 1];
    forall k | 0 <= k < |y| ensures IsDisplayChar(y[k]) {
      if k > |x| {
        assert y[k] == group[k - |x| - 1];
      }
    }
    assert Filter(" ", IsDialable) == [];
    FilterJoin(x, " ", group, IsDialable);
    FilterAll(group, IsDialable);
  }

  lemma LayoutThree(s: string)
    requires AllDigits(s) && 2 < |s| <= 3
    ensures Trimmed(Layout(s)) && AllDisplay(Layout(s))
    ensures KeepDialable(Layout(s)) == "+" + s
  {
    var p1 := "+" + s[..2];
    assert AllDigits(s[..2]);
    FilterConcat("+", s[..2], IsDialable);
    FilterAll(s[..2], IsDialable);
    assert Filter("+", IsDialable) == "+";
    AppendGroup(p1, s[2..]);
    assert s == s[..2] + s[2..];
  }

  lemma LayoutSeven(s: string)
    requires AllDigits(s) && 3 < |s| <= 7
    ensures Trimmed(Layout(s)) && AllDisplay(Layout(s))
    ensures KeepDialable(Layout(s)) == "+" + s
  {
    var p1 := "+" + s[..2];
    assert AllDigits(s[..2]);
    FilterConcat("+", s[..2], IsDialable);
    FilterAll(s[..2], IsDialable);
    assert Filter("+", IsDialable) == "+";
    AppendGroup(p1, s[2..3]);
    var p2 := p1 + " " + s[2..3];
    AppendGroup(p2, s[3..]);
    assert s == s[..2] + s[2..3] + s[3..];
  }

  lemma LayoutEleven(s: string)
    requires AllDigits(s) && 7 < |s| <= MaxDigits
    ensures Trimmed(Layout(s)) && AllDisplay(Layout(s))
    ensures KeepDialable(Layout(s)) == "+" + s
  {
    var p1 := "+" + s[..2];
    assert AllDigits(s[..2]);
    FilterConcat("+", s[..2], IsDialable);
    FilterAll(s[..2], IsDialable);
    assert Filter("+", IsDialable) == "+";
    AppendGroup(p1, s[2..3]);
    var p2 := p1 + " " + s[2..3];
    AppendGroup(p2, s[3..7]);
    var p3 := p2 + " " + s[3..7];
    AppendGroup(p3, s[7..]);
    assert |Significant(s)| == |s|;
    assert Layout(s) == p3 + " " + s[7..];
    assert s == s[..2] + s[2..3] + s[3..7] + s[7..];
  }

  /** The digits of the layout are the first eleven of d. */
  lemma LayoutDigits(d: string)
    requires AllDigits(d)
    ensures Digits(Layout(d)) == Significant(d)
  {
    LayoutKeepsDigits(d);
    DigitsOfDialable(Layout(d));
    if d != [] {
      FilterConcat("+", Significant(d), IsDigit);
      FilterAll(Significant(d), IsDigit);
      assert Digits("+") == [];
    }
  }

  /** Only the first eleven digits reach the layout. */
  lemma LayoutOfSignificant(d: string)
    ensures Layout(Significant(d)) == Layout(d)
  {
  }

  /** Formatting the formatter's own output changes nothing. */
  lemma FormatIdempotent(raw: string)
    ensures Format(Format(raw)) == Format(raw)
  {
    var d := CountryDigits(raw);
    var out := Format(raw);
    LayoutKeepsDigits(d);
    var v := KeepDialable(out);
    assert AddCountryCode(v) == v;
    DigitsOfDialable(out);
    LayoutDigits(d);
    assert CountryDigits(out) == Significant(d);
    LayoutOfSignificant(d);
  }
}
