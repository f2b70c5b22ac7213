/**
 * `re.findall(r'-?\d+(?:,\d{3})*(?:\.\d+)?', text)`: the number tokens of a
 * text, found left to right without overlaps.  Every part after the leading
 * digits is optional, so the first match the backtracking engine reports at
 * a position is the greedy one: the longest digit run, then as many
 * `,ddd` groups as follow, then a `.digits` fraction if one follows.
 */
module NumScan {
  import opened Wrappers
  import opened Text
  import opened Numbers

  /** End of the run of digits starting at `j`. */
  function DigitRunEnd(s: string, j: nat): (k: nat)
    requires j <= |s|
    ensures j <= k <= |s|
    ensures forall m :: j <= m < k ==> IsDigit(s[m])
    ensures k < |s| ==> !IsDigit(s[k])
    decreases |s| - j
  {
    if j < |s| && IsDigit(s[j]) then DigitRunEnd(s, j + 1) else j
  }

  /** A `,ddd` group starts at `j`. */
  predicate GroupAt(s: string, j: nat) {
    j + 4 <= |s| && s[j] == ',' && IsDigit(s[j + 1]) && IsDigit(s[j + 2]) && IsDigit(s[j + 3])
  }

  /** End of the `(?:,\d{3})*` part starting at `j`. */
  function GroupsEnd(s: string, j: nat): (k: nat)
    requires j <= |s|
    ensures j <= k <= |s|
    ensures !GroupAt(s, k)
    decreases |s| - j
  {
    if GroupAt(s, j) then GroupsEnd(s, j + 4) else j
  }

  /** End of the optional `(?:\.\d+)?` part starting at `j`. */
  function FractionEnd(s: string, j: nat): (k: nat)
    requires j <= |s|
    ensures j <= k <= |s|
  {
    if j + 1 < |s| && s[j] == '.' && IsDigit(s[j + 1]) then DigitRunEnd(s, j + 1) else j
  }

  /** A match can start at `i`: a digit, or a minus sign followed by a digit. */
  predicate StartsNumber(s: string, i: nat) {
    i < |s| && (IsDigit(s[i]) || (s[i] == '-' && i + 1 < |s| && IsDigit(s[i + 1])))
  }

  /** Where the digits of a match starting at `i` begin (after the optional sign). */
  function DigitsStart(s: string, i: nat): nat
    requires StartsNumber(s, i)
  {
    if s[i] == '-' then i + 1 else i
  }

  /** End of the match starting at `i`. */
  function MatchEnd(s: string, i: nat): (e: nat)
    requires StartsNumber(s, i)
    ensures i < e <= |s|
  {
    FractionEnd(s, GroupsEnd(s, DigitRunEnd(s, DigitsStart(s, i))))
  }

  /** The matches at or after position `i`, in order. */
  function TokensFrom(s: string, i: nat): seq<string>
    requires i <= |s|
    decreases |s| - i
  {
    if i == |s| then []
    else if StartsNumber(s, i) then [s[i..MatchEnd(s, i)]] + TokensFrom(s, MatchEnd(s, i))
    else TokensFrom(s, i + 1)
  }

  /** `re.findall` of the number pattern. */
  function FindNumbers(s: string): seq<string> {
    TokensFrom(s, 0)
  }

  /** `\d` matches every decimal digit, so full-width digits form a token. */
  lemma {:induction false} WideDigitsFound()
    ensures FindNumbers("營收１２３億") == ["１２３"]
  {
    var s := "營收１２３億";
    assert !IsDigit(s[0]) && !IsDigit(s[1]) && IsDigit(s[2]) && IsDigit(s[3]) && IsDigit(s[4]) && !IsDigit(s[5]);
    assert DigitRunEnd(s, 5) == 5;
    assert DigitRunEnd(s, 2) == 5;
    assert GroupsEnd(s, 5) == 5;
    assert MatchEnd(s, 2) == 5;
    assert TokensFrom(s, 5) == [];
    assert TokensFrom(s, 0) == TokensFrom(s, 2);
    assert s[2..5] == "１２３";
  }

  // ---------------------------------------------------------------------------
  // Every token reads as a float once its commas are removed.
  // ---------------------------------------------------------------------------

  /** A run of `,ddd` groups. */
  predicate IsGroups(g: string)
    decreases |g|
  {
    g == [] || (|g| >= 4 && g[0] == ',' && AllDigits(g[1..4]) && IsGroups(g[4..]))
  }

  lemma {:induction false} GroupsShape(s: string, j: nat)
    requires j <= |s|
    ensures IsGroups(s[j..GroupsEnd(s, j)])
    decreases |s| - j
  {
    if GroupAt(s, j) {
      var e := GroupsEnd(s, j + 4);
      GroupsShape(s, j + 4);
      assert GroupsEnd(s, j) == e;
      var g := s[j..e];
      assert g[4..] == s[j + 4..e];
      assert g[1..4] == s[j + 1..j + 4];
      assert AllDigits(g[1..4]) by {
        assert g[1..4][0] == s[j + 1] && g[1..4][1] == s[j + 2] && g[1..4][2] == s[j + 3];
      }
      assert g[0] == ',';
    } else {
      assert s[j..j] == [];
    }
  }

  /** Removing the commas of a run of groups leaves digits only. */
  lemma {:induction false} GroupsDigits(g: string)
    requires IsGroups(g)
    ensures AllDigits(RemoveChar(g, ','))
    decreases |g|
  {
    if g != [] {
      GroupsDigits(g[4..]);
      assert g == g[..4] + g[4..];
      RemoveCharAppend(g[..4], g[4..], ',');
      assert g[..4] == [','] + g[1..4];
      RemoveCharAppend([','], g[1..4], ',');
      assert ',' !in g[1..4] by { assert AllDigits(g[1..4]); }
      AllDigitsAppend(g[1..4], RemoveChar(g[4..], ','));
    }
  }

  lemma {:induction false} DigitsHaveNoComma(d: string)
    requires AllDigits(d)
    ensures RemoveChar(d, ',') == d
  {
    assert ',' !in d;
  }

  /** Removing the commas touches only the groups. */
  lemma {:induction false} CleanParts(sign: string, digits: string, groups: string, fraction: string)
    requires ',' !in sign && ',' !in fraction && AllDigits(digits)
    ensures RemoveChar(sign + digits + groups + fraction, ',') == sign + (digits + RemoveChar(groups, ',')) + fraction
  {
    var sd := sign + digits;
    RemoveCharAppend(sign, digits, ',');
    DigitsHaveNoComma(digits);
    assert RemoveChar(sd, ',') == sd;
    var sdg := sd + groups;
    RemoveCharAppend(sd, groups, ',');
    RemoveCharAppend(sdg, fraction, ',');
    assert RemoveChar(sdg + fraction, ',') == sd + RemoveChar(groups, ',') + fraction;
    MiddleRegroup(sign, digits, RemoveChar(groups, ','), fraction);
  }

  lemma {:induction false} MiddleRegroup(a: string, b: string, c: string, d: string)
    ensures a + b + c + d == a + (b + c) + d
  {
  }

  /** An optional minus, digits, then nothing or a point and digits, reads as a float. */
  lemma {:induction false} PlainLiteralParses(neg: bool, dg: string, fraction: string)
    requires AllDigits(dg) && dg != []
    requires fraction == [] || (|fraction| >= 2 && fraction[0] == '.' && AllDigits(fraction[1..]))
    ensures ParseFloat(SignText(neg) + dg + fraction).Some?
  {
    NoExponent();
    if fraction == [] {
      UnsignedNoPoint(dg, "", 0);
      assert dg + "" == dg;
      assert SignText(neg) + dg + fraction == SignText(neg) + dg;
      ParseSigned(neg, dg, Decimal(DigitsValue(dg), 0));
    } else {
      var b := fraction[1..];
      UnsignedPoint(dg, b, "", 0);
      assert "." + (b + "") == fraction;
      assert SignText(neg) + dg + fraction == SignText(neg) + (dg + fraction);
      ParseSigned(neg, dg + fraction, Decimal(Mantissa(dg, b), -|b|));
    }
  }

  /** The token found at `i` reads as a number once its commas are removed. */
  lemma {:induction false} MatchParses(s: string, i: nat)
    requires StartsNumber(s, i)
    ensures ParseFloat(RemoveChar(s[i..MatchEnd(s, i)], ',')).Some?
  {
    var d := DigitsStart(s, i);
    var k1 := DigitRunEnd(s, d);
    var k2 := GroupsEnd(s, k1);
    var e := FractionEnd(s, k2);
    var sign, digits, groups, fraction := s[i..d], s[d..k1], s[k1..k2], s[k2..e];
    SliceFour(s, i, d, k1, k2, e);
    assert AllDigits(digits) && digits != [];
    var neg := s[i] == '-';
    assert sign == SignText(neg);
    assert fraction == [] || (|fraction| >= 2 && fraction[0] == '.' && AllDigits(fraction[1..]));
    GroupsShape(s, k1);
    GroupsDigits(groups);
    AllDigitsAppend(digits, RemoveChar(groups, ','));
    CleanParts(sign, digits, groups, fraction);
    PlainLiteralParses(neg, digits + RemoveChar(groups, ','), fraction);
  }

  lemma {:induction false} SliceFour(s: string, i: nat, d: nat, k1: nat, k2: nat, e: nat)
    requires i <= d <= k1 <= k2 <= e <= |s|
    ensures s[i..e] == s[i..d] + s[d..k1] + s[k1..k2] + s[k2..e]
  {
    assert s[i..k1] == s[i..d] + s[d..k1];
    assert s[i..k2] == s[i..k1] + s[k1..k2];
    assert s[i..e] == s[i..k2] + s[k2..e];
  }

  /** Every token `findall` returns reads as a float once its commas are removed. */
  lemma {:induction false} TokensParse(s: string, i: nat)
    requires i <= |s|
    ensures forall t :: t in TokensFrom(s, i) ==> ParseFloat(RemoveChar(t, ',')).Some?
    decreases |s| - i
  {
    if i < |s| {
      if StartsNumber(s, i) {
        MatchParses(s, i);
        TokensParse(s, MatchEnd(s, i));
      } else {
        TokensParse(s, i + 1);
      }
    }
  }

  // ---------------------------------------------------------------------------
  // Numbers written by `str()` and by `f"{n:,}"` are found whole.
  // ---------------------------------------------------------------------------

  lemma {:induction false} AllDigitsRun(s: string, j: nat)
    requires j <= |s|
    requires forall m :: j <= m < |s| ==> IsDigit(s[m])
    ensures DigitRunEnd(s, j) == |s|
    decreases |s| - j
  {
    if j < |s| {
      AllDigitsRun(s, j + 1);
    }
  }

  /** A whole text that is one match is one token. */
  lemma {:induction false} WholeMatch(s: string)
    requires StartsNumber(s, 0) && MatchEnd(s, 0) == |s|
    ensures FindNumbers(s) == [s]
  {
    assert s[0..|s|] == s;
    assert TokensFrom(s, |s|) == [];
  }

  /** `str(i)` of an int is found as the single token it is. */
  lemma {:induction false} IntFound(i: int)
    ensures FindNumbers(IntToString(i)) == [IntToString(i)]
  {
    var s := IntToString(i);
    var d := if i < 0 then 1 else 0;
    assert forall m :: d <= m < |s| ==> IsDigit(s[m]) by {
      if i < 0 {
        forall m | 1 <= m < |s| ensures IsDigit(s[m]) {
          assert s[m] == NatToString(-i)[m - 1];
        }
      }
    }
    assert |s| > d;
    AllDigitsRun(s, d);
    WholeMatch(s);
  }

  /** `f"{n:,}"` of a natural number splits into leading digits and groups. */
  lemma {:induction false} GroupNatShape(n: nat) returns (h: string, g: string)
    ensures GroupNat(n) == h + g
    ensures h != [] && AllDigits(h) && IsGroups(g)
  {
    if n < 1000 {
      h, g := NatToString(n), [];
      assert h + g == h;
    } else {
      var h', g' := GroupNatShape(n / 1000);
      GroupNatStep(n, h', g');
      h, g := h', g' + ("," + ZeroPad(n % 1000, 3));
    }
  }

  /** One more group: the shape of `f"{n:,}"` from that of `f"{n // 1000:,}"`. */
  lemma {:induction false} GroupNatStep(n: nat, h: string, g: string)
    requires n >= 1000 && GroupNat(n / 1000) == h + g && IsGroups(g)
    ensures GroupNat(n) == h + (g + ("," + ZeroPad(n % 1000, 3)))
    ensures IsGroups(g + ("," + ZeroPad(n % 1000, 3)))
  {
    var z := ZeroPad(n % 1000, 3);
    ThreeDigitGroup(n % 1000);
    IsGroupsAppend(g, "," + z);
    assert GroupNat(n) == (h + g) + "," + z;
    ConcatRegroup(h, g, z);
  }

  lemma {:induction false} ConcatRegroup(h: string, g: string, z: string)
    ensures (h + g) + "," + z == h + (g + ("," + z))
  {
    assert (h + g) + "," + z == h + g + ("," + z);
  }

  /** The group `,ddd` that `f"{n:,}"` writes for the last three digits. */
  lemma {:induction false} ThreeDigitGroup(m: nat)
    requires m < 1000
    ensures var group := "," + ZeroPad(m, 3); |group| == 4 && group[0] == ',' && AllDigits(group[1..])
  {
    NatToStringLength(m, 3);
    assert ("," + ZeroPad(m, 3))[1..] == ZeroPad(m, 3);
  }

  lemma {:induction false} IsGroupsAppend(g: string, group: string)
    requires IsGroups(g)
    requires |group| == 4 && group[0] == ',' && AllDigits(group[1..])
    ensures IsGroups(g + group)
    decreases |g|
  {
    if g == [] {
      assert g + group == group;
      assert group[4..] == [];
      assert group[1..4] == group[1..];
    } else {
      IsGroupsAppend(g[4..], group);
      assert (g + group)[4..] == g[4..] + group;
      assert (g + group)[1..4] == g[1..4];
    }
  }

  lemma {:induction false} GroupsRun(s: string, j: nat)
    requires j <= |s| && IsGroups(s[j..])
    ensures GroupsEnd(s, j) == |s|
    decreases |s| - j
  {
    if j < |s| {
      var g := s[j..];
      assert g[1..4] == s[j + 1..j + 4];
      assert IsDigit(g[1..4][0]) && IsDigit(g[1..4][1]) && IsDigit(g[1..4][2]);
      assert GroupAt(s, j);
      assert g[4..] == s[j + 4..];
      GroupsRun(s, j + 4);
    }
  }

  /** `f"{i:,}"` of an int is found as a single token. */
  lemma {:induction false} GroupedFound(i: int)
    ensures FindNumbers(GroupThousands(i)) == [GroupThousands(i)]
  {
    var h, g := GroupNatShape(if i < 0 then -i else i);
    var sign := if i < 0 then "-" else "";
    assert GroupThousands(i) == sign + h + g;
    GroupedMatch(sign, h, g);
    WholeMatch(sign + h + g);
  }

  lemma {:induction false} GroupedMatch(sign: string, h: string, g: string)
    requires sign == "" || sign == "-"
    requires h != [] && AllDigits(h) && IsGroups(g)
    ensures StartsNumber(sign + h + g, 0) && MatchEnd(sign + h + g, 0) == |sign + h + g|
  {
    var s := sign + h + g;
    var d := |sign|;
    assert s[d..d + |h|] == h;
    assert s[d + |h|..] == g;
    assert s[d] == h[0];
    assert DigitsStart(s, 0) == d;
    SliceDigits(s, d, h);
    assert d + |h| < |s| ==> s[d + |h|] == g[0];
    DigitRunFrom(s, d, d + |h|);
    GroupsRun(s, d + |h|);
  }

  lemma {:induction false} SliceDigits(s: string, d: nat, h: string)
    requires d + |h| <= |s| && s[d..d + |h|] == h && AllDigits(h)
    ensures forall m :: d <= m < d + |h| ==> IsDigit(s[m])
  {
    forall m | d <= m < d + |h| ensures IsDigit(s[m]) {
      assert s[m] == h[m - d];
    }
  }

  lemma {:induction false} DigitRunFrom(s: string, j: nat, k: nat)
    requires j <= k <= |s|
    requires forall m :: j <= m < k ==> IsDigit(s[m])
    requires k < |s| ==> !IsDigit(s[k])
    ensures DigitRunEnd(s, j) == k
    decreases k - j
  {
    if j < k {
      DigitRunFrom(s, j + 1, k);
    }
  }

  /** Removing the separators of `f"{n:,}"` gives back `n`: the token and the number agree. */
  lemma {:induction false} GroupedValue(n: nat)
    ensures ParseFloat(RemoveChar(GroupThousands(n), ',')) == Some(Decimal(n, 0))
  {
    GroupNatDigits(n);
    var plain := RemoveChar(GroupNat(n), ',');
    NoExponent();
    UnsignedNoPoint(plain, "", 0);
    assert plain + "" == plain;
    var h, g := GroupNatShape(n);
    assert plain != [] && IsDigit(plain[0]) && IsDigit(plain[|plain| - 1]) by {
      assert plain != [] by {
        RemoveCharAppend(h, g, ',');
        DigitsHaveNoComma(h);
      }
    }
    ParseSigned(false, plain, Decimal(n, 0));
    assert SignText(false) + plain == plain;
  }
}
