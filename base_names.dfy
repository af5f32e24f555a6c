/**
 * The two generated base-name formats, `"vloc_" + name + "_" + id` for a local
 * declaration and `"expr_" + id` for an expression, with decoders that read a
 * base name back. The decoders are the partners that show the formats are
 * unambiguous: the id (and the surface name) can be recovered from the string.
 */
module BaseNames {
  import opened Wrappers
  import opened Decimal

  function DeclarationBaseName(name: string, id: nat): string {
    "vloc_" + name + "_" + NatToString(id)
  }

  function ExpressionBaseName(id: nat): string {
    "expr_" + NatToString(id)
  }

  /** The position of the last `c` in `s`, if any. */
  function LastIndexOf(s: string, c: char): (r: Option<nat>)
    ensures r.Some? ==> r.value < |s| && s[r.value] == c
    ensures r.Some? ==> forall k :: r.value < k < |s| ==> s[k] != c
    ensures r.None? ==> forall k :: 0 <= k < |s| ==> s[k] != c
  {
    if s == [] then None
    else if s[|s| - 1] == c then Some(|s| - 1)
    else LastIndexOf(s[..|s| - 1], c)
  }

  /** Splits a declaration base name at its last underscore into surface name and id. */
  function DecodeDeclarationBaseName(s: string): Option<(string, nat)> {
    if |s| < 5 || s[..5] != "vloc_" then None
    else match LastIndexOf(s, '_')
      case None => None
      case Some(k) =>
        if k < 5 || k + 1 == |s| || !AllDigits(s[k + 1..]) then None
        else Some((s[5..k], ParseDecimal(s[k + 1..])))
  }

  function DecodeExpressionBaseName(s: string): Option<nat> {
    if |s| <= 5 || s[..5] != "expr_" || !AllDigits(s[5..]) then None
    else Some(ParseDecimal(s[5..]))
  }

  lemma DeclarationBaseNameRoundTrip(name: string, id: nat)
    ensures DecodeDeclarationBaseName(DeclarationBaseName(name, id)) == Some((name, id))
  {
    var digits := NatToString(id);
    var s := DeclarationBaseName(name, id);
    var sep := 5 + |name|;
    assert s[..5] == "vloc_";
    assert s[sep] == '_';
    assert forall k :: sep < k < |s| ==> s[k] == digits[k - sep - 1];
    var r := LastIndexOf(s, '_');
    var k := r.value;
    assert k == sep;
    assert s[5..k] == name;
    assert s[k + 1..] == digits;
    ParseNatToString(id);
  }

  lemma ExpressionBaseNameRoundTrip(id: nat)
    ensures DecodeExpressionBaseName(ExpressionBaseName(id)) == Some(id)
  {
    var s := ExpressionBaseName(id);
    assert s[..5] == "expr_";
    assert s[5..] == NatToString(id);
    ParseNatToString(id);
  }

  /** Two declarations get the same base name only if both surface name and id agree. */
  lemma DeclarationBaseNameInjective(name1: string, id1: nat, name2: string, id2: nat)
    ensures DeclarationBaseName(name1, id1) == DeclarationBaseName(name2, id2) <==> name1 == name2 && id1 == id2
  {
    DeclarationBaseNameRoundTrip(name1, id1);
    DeclarationBaseNameRoundTrip(name2, id2);
  }

  lemma ExpressionBaseNameInjective(id1: nat, id2: nat)
    ensures ExpressionBaseName(id1) == ExpressionBaseName(id2) <==> id1 == id2
  {
    ExpressionBaseNameRoundTrip(id1);
    ExpressionBaseNameRoundTrip(id2);
  }

  /** No declaration base name is an expression base name: neither decoder accepts the other's names. */
  lemma BaseNameFormatsDisjoint(name: string, id1: nat, id2: nat)
    ensures DecodeExpressionBaseName(DeclarationBaseName(name, id1)).None?
    ensures DecodeDeclarationBaseName(ExpressionBaseName(id2)).None?
    ensures DeclarationBaseName(name, id1) != ExpressionBaseName(id2)
  {
    assert DeclarationBaseName(name, id1)[..5] == "vloc_" != "expr_";
  }

  /** A `c` with no `c` after it is the last one. */
  lemma {:induction false} LastIndexOfIs(s: string, c: char, k: nat)
    requires k < |s| && s[k] == c
    requires forall j :: k < j < |s| ==> s[j] != c
    ensures LastIndexOf(s, c) == Some(k)
    decreases |s|
  {
    if k < |s| - 1 {
      LastIndexOfIs(s[..|s| - 1], c, k);
    }
  }

  /** In `p + "_" + s`, the `_` after `p` is followed only by the characters of `s`. */
  lemma UnderscoreThenSuffix(p: string, s: string)
    requires forall i :: 0 <= i < |s| ==> s[i] != '_'
    ensures |p + "_" + s| == |p| + 1 + |s| && (p + "_" + s)[|p|] == '_'
    ensures forall j :: |p| < j < |p + "_" + s| ==> (p + "_" + s)[j] != '_'
  {
    var c := p + "_" + s;
    forall j | |p| < j < |c|
      ensures c[j] != '_'
    {
      assert c[j] == s[j - |p| - 1];
    }
  }

  /** The last `_` of `p + "_" + s` is the one after `p` when `s` holds none. */
  lemma LastUnderscoreAfter(p: string, s: string)
    requires forall i :: 0 <= i < |s| ==> s[i] != '_'
    ensures LastIndexOf(p + "_" + s, '_') == Some(|p|)
  {
    UnderscoreThenSuffix(p, s);
    LastIndexOfIs(p + "_" + s, '_', |p|);
  }

  /** The last `_` of a declaration base name precedes the id. */
  lemma DeclarationBaseNameTail(name: string, id: nat)
    ensures LastIndexOf(DeclarationBaseName(name, id), '_') == Some(5 + |name|)
    ensures DeclarationBaseName(name, id)[5 + |name| + 1..] == NatToString(id)
  {
    assert DeclarationBaseName(name, id) == ("vloc_" + name) + "_" + NatToString(id);
    LastUnderscoreAfter("vloc_" + name, NatToString(id));
  }

  /** A suffix appended to a base name by slot addressing: empty, or starting with `_`. */
  predicate IsSlotSuffix(r: string) {
    r == [] || r[0] == '_'
  }

  /** In a digit run followed by a slot suffix, the run is exactly the leading digits. */
  lemma DigitRunShape(d: string, r: string)
    requires AllDigits(d) && IsSlotSuffix(r)
    ensures forall i :: 0 <= i < |d| ==> IsDigit((d + r)[i])
    ensures r != [] ==> !IsDigit((d + r)[|d|])
  {
  }

  /** A digit run followed by a slot suffix determines the digit run. */
  lemma DigitRunDetermined(d1: string, r1: string, d2: string, r2: string)
    requires AllDigits(d1) && AllDigits(d2)
    requires IsSlotSuffix(r1) && IsSlotSuffix(r2)
    requires d1 + r1 == d2 + r2
    ensures d1 == d2
  {
    var s := d1 + r1;
    DigitRunShape(d1, r1);
    DigitRunShape(d2, r2);
    assert |d1| == |d2|;
    assert d1 == s[..|d1|] == d2;
  }

  /** Names derived from declaration base names with the same surface name and different ids never clash,
      whatever slot suffixes are appended. */
  lemma DerivedDeclarationNamesDistinct(name: string, id1: nat, id2: nat, r1: string, r2: string)
    requires id1 != id2
    requires IsSlotSuffix(r1) && IsSlotSuffix(r2)
    ensures DeclarationBaseName(name, id1) + r1 != DeclarationBaseName(name, id2) + r2
  {
    var p := "vloc_" + name + "_";
    var d1, d2 := NatToString(id1), NatToString(id2);
    if DeclarationBaseName(name, id1) + r1 == DeclarationBaseName(name, id2) + r2 {
      assert p + (d1 + r1) == DeclarationBaseName(name, id1) + r1;
      assert p + (d2 + r2) == DeclarationBaseName(name, id2) + r2;
      assert (p + (d1 + r1))[|p|..] == d1 + r1;
      assert (p + (d2 + r2))[|p|..] == d2 + r2;
      DigitRunDetermined(d1, r1, d2, r2);
      NatToStringInjective(id1, id2);
    }
  }
}
