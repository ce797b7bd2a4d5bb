/**
 The kinds every program starts with, and why registering them never panics: the
 primitive and framework kinds are fixed, and the two decimal spellings that name
 the HTTP kinds are injective.
 */
module Startup {
  import opened Prelude
  import opened Kinds
  import opened KindRegistry

  // --- decimal spellings ----------------------------------------------------------------------

  function Digit(d: nat): char
    requires d < 10
  {
    (48 + d) as char
  }

  /** %d of a natural number. */
  function Decimal(n: nat): string {
    if n < 10 then [Digit(n)] else Decimal(n / 10) + [Digit(n % 10)]
  }

  /** Zeros in front, up to a width: %05d is Padded(Decimal(n), 5). */
  function Padded(s: string, width: nat): string
    decreases width - |s|
  {
    if |s| >= width then s else Padded(['0'] + s, width)
  }

  function NumberIn(s: string): int {
    if s == "" then 0 else 10 * NumberIn(s[..|s| - 1]) + (s[|s| - 1] as int - 48)
  }

  lemma {:induction false} DecimalReadsBack(n: nat)
    ensures NumberIn(Decimal(n)) == n
  {
    if n < 10 {
      assert Decimal(n)[..0] == "";
    } else {
      DecimalReadsBack(n / 10);
      assert Decimal(n)[..|Decimal(n)| - 1] == Decimal(n / 10);
    }
  }

  lemma {:induction false} LeadingZero(s: string)
    ensures NumberIn(['0'] + s) == NumberIn(s)
  {
    var t := ['0'] + s;
    if s == "" {
      assert t[..0] == "";
    } else {
      assert t[..|t| - 1] == ['0'] + s[..|s| - 1];
      LeadingZero(s[..|s| - 1]);
    }
  }

  lemma {:induction false} PaddingReadsBack(s: string, width: nat)
    ensures NumberIn(Padded(s, width)) == NumberIn(s)
    decreases width - |s|
  {
    if |s| < width {
      LeadingZero(s);
      PaddingReadsBack(['0'] + s, width);
    }
  }

  function HttpCode(status: nat): string {
    ['S'] + Padded(Decimal(status), 5)
  }

  function HttpName(status: nat): string {
    Framed("HTTP", Decimal(status), "Error")
  }

  function Framed(prefix: string, s: string, suffix: string): string {
    prefix + s + suffix
  }

  lemma FramesAreInjective(prefix: string, a: string, b: string, suffix: string)
    ensures Framed(prefix, a, suffix) == Framed(prefix, b, suffix) <==> a == b
  {
    if Framed(prefix, a, suffix) == Framed(prefix, b, suffix) {
      assert a == Framed(prefix, a, suffix)[|prefix|..|prefix + a|];
      assert b == Framed(prefix, b, suffix)[|prefix|..|prefix + b|];
    }
  }

  lemma DecimalIsInjective(a: nat, b: nat)
    ensures Decimal(a) == Decimal(b) <==> a == b
    ensures Padded(Decimal(a), 5) == Padded(Decimal(b), 5) <==> a == b
  {
    hide Decimal, Padded, NumberIn;
    DecimalReadsBack(a);
    DecimalReadsBack(b);
    PaddingReadsBack(Decimal(a), 5);
    PaddingReadsBack(Decimal(b), 5);
  }

  /** Two HTTP kinds share a code, or a name, only if they are for one status. */
  lemma HttpIdentifiersAreInjective(a: nat, b: nat)
    ensures HttpCode(a) == HttpCode(b) <==> a == b
    ensures HttpName(a) == HttpName(b) <==> a == b
  {
    hide Decimal, Padded, NumberIn, Framed;
    DecimalIsInjective(a, b);
    FramesAreInjective("HTTP", Decimal(a), Decimal(b), "Error");
    assert HttpCode(a)[1..] == Padded(Decimal(a), 5);
    assert HttpCode(b)[1..] == Padded(Decimal(b), 5);
  }

  predicate Digits(s: string) {
    forall i :: 0 <= i < |s| ==> '0' <= s[i] <= '9'
  }

  lemma {:induction false} DecimalIsDigits(n: nat)
    ensures Digits(Decimal(n)) && Decimal(n) != "" && (n > 0 ==> Decimal(n)[0] != '0')
    ensures n < 100_000 ==> |Decimal(n)| <= 5
    ensures n < 10_000 ==> |Decimal(n)| <= 4
    ensures n < 1_000 ==> |Decimal(n)| <= 3
    ensures n < 100 ==> |Decimal(n)| <= 2
    ensures n < 10 ==> |Decimal(n)| == 1
  {
    if n >= 10 { DecimalIsDigits(n / 10); }
  }

  lemma {:induction false} PaddedIsDigits(s: string, width: nat)
    requires Digits(s) && |s| <= width
    ensures Digits(Padded(s, width)) && |Padded(s, width)| == width
    decreases width - |s|
  {
    if |s| < width { PaddedIsDigits(['0'] + s, width); }
  }

  /** The code of a status is an S and its five digits; its name spells it in plain decimal. */
  lemma HttpIdentifiersSpell(status: nat)
    requires status < 100_000
    ensures |HttpCode(status)| == 6 && HttpCode(status)[0] == 'S'
    ensures Digits(HttpCode(status)[1..]) && NumberIn(HttpCode(status)[1..]) == status
    ensures exists d :: HttpName(status) == "HTTP" + d + "Error" && Digits(d) && NumberIn(d) == status
  {
    hide Decimal, Padded, NumberIn;
    var d := Decimal(status);
    DecimalIsDigits(status);
    PaddedIsDigits(d, 5);
    DecimalReadsBack(status);
    PaddingReadsBack(d, 5);
    assert HttpCode(status)[1..] == Padded(d, 5);
    assert HttpName(status) == "HTTP" + d + "Error";
  }

  // --- who is registered, in order --------------------------------------------------------------

  const PRIMITIVES := [
    Identity("P00000", "Error"), Identity("P00001", "UserError"), Identity("P00002", "SystemError")]

  const TERTIARIES := [
    Identity("C00001", "InvalidRequestError"), Identity("C00003", "AuthError"), Identity("C00004", "ForbiddenError"),
    Identity("C00005", "NotFoundError"), Identity("C00006", "ContextError"),
    Identity("C00007", "ContextValueNotFoundError")]

  function Secondaries(order: seq<nat>): (ids: seq<Identity>)
    ensures |ids| == |order|
    ensures forall i :: 0 <= i < |ids| ==> ids[i] == Identity(HttpCode(order[i]), HttpName(order[i]))
  {
    seq(|order|, i requires 0 <= i < |order| => Identity(HttpCode(order[i]), HttpName(order[i])))
  }

  /** What init registers when the map of HTTP kinds is walked in this order. */
  function Registrations(order: seq<nat>): seq<Identity> {
    PRIMITIVES + Secondaries(order) + TERTIARIES
  }

  predicate Distinct(order: seq<nat>) {
    forall i, j :: 0 <= i < j < |order| ==> order[i] != order[j]
  }

  /** Told apart by the ends of their codes, and the lengths and heads of their names. */
  predicate Apart(a: Identity, b: Identity)
    requires a.code != "" && b.code != "" && a.name != "" && b.name != ""
  {
    && (a.code[0] != b.code[0] || a.code[|a.code| - 1] != b.code[|b.code| - 1])
    && (a.name[0] != b.name[0] || |a.name| != |b.name|)
  }

  predicate AllApart(ids: seq<Identity>) {
    && (forall i :: 0 <= i < |ids| ==> ids[i].code != "" && ids[i].name != "")
    && (forall i, j :: 0 <= i < j < |ids| ==> Apart(ids[i], ids[j]))
  }

  /** Codes of a tier share their first letter; no fixed name starts like an HTTP one. */
  predicate Tier(ids: seq<Identity>, letter: char) {
    forall i :: 0 <= i < |ids| ==>
      |ids[i].code| > 0 && ids[i].code[0] == letter && |ids[i].name| > 0 && ids[i].name[0] != 'H'
  }

  lemma PrimitivesAreApart()
    ensures AllApart(PRIMITIVES) && Tier(PRIMITIVES, 'P')
  {
  }

  lemma TertiariesAreApart()
    ensures AllApart(TERTIARIES) && Tier(TERTIARIES, 'C')
  {
    TertiaryCodes();
    TertiaryNames();
    ApartByTable(TERTIARIES, ['1', '3', '4', '5', '6', '7'], [19, 9, 14, 13, 12, 25]);
  }

  lemma TertiaryCodes()
    ensures forall i :: 0 <= i < 6 ==> |TERTIARIES[i].code| == 6 && TERTIARIES[i].code[0] == 'C'
    ensures forall i :: 0 <= i < 6 ==> TERTIARIES[i].code[5] == ['1', '3', '4', '5', '6', '7'][i]
  {
  }

  lemma TertiaryNames()
    ensures forall i :: 0 <= i < 6 ==>
              |TERTIARIES[i].name| == [19, 9, 14, 13, 12, 25][i] && TERTIARIES[i].name[0] != 'H'
  {
  }

  lemma ApartByTable(ids: seq<Identity>, ends: seq<char>, lengths: seq<nat>)
    requires |ids| == |ends| == |lengths|
    requires forall i :: 0 <= i < |ids| ==> ids[i].code != "" && ids[i].code[|ids[i].code| - 1] == ends[i]
    requires forall i :: 0 <= i < |ids| ==> |ids[i].name| == lengths[i] > 0
    requires forall i, j :: 0 <= i < j < |ids| ==> lengths[i] != lengths[j] && ends[i] != ends[j]
    ensures AllApart(ids)
  {
  }

  lemma TiersAreApart()
    ensures forall i, j :: 0 <= i < |PRIMITIVES| && 0 <= j < |TERTIARIES| ==>
              PRIMITIVES[i].name != TERTIARIES[j].name
  {
    assert forall i :: 0 <= i < |PRIMITIVES| ==> PRIMITIVES[i].name[0] == "EUS"[i];
    assert forall j :: 0 <= j < |TERTIARIES| ==> TERTIARIES[j].name[0] == "IAFNCC"[j];
  }

  /** Start-up registration panics for no order the map of HTTP kinds is walked in. */
  lemma StartupNeverClashes(order: seq<nat>)
    ensures AllNew({}, {}, Registrations(order)) <==> Distinct(order)
  {
    hide Decimal, Padded, Framed;
    PrimitivesAreApart();
    TertiariesAreApart();
    TiersAreApart();
    Assembled(PRIMITIVES, order, TERTIARIES);
  }

  lemma Assembled(first: seq<Identity>, order: seq<nat>, last: seq<Identity>)
    requires AllApart(first) && AllApart(last) && Tier(first, 'P') && Tier(last, 'C')
    requires forall i, j :: 0 <= i < |first| && 0 <= j < |last| ==> first[i].name != last[j].name
    ensures AllNew({}, {}, first + Secondaries(order) + last) <==> Distinct(order)
  {
    var middle := Secondaries(order);
    SecondariesClash(order);
    Joined(first, middle);
    Joined(first + middle, last);
  }

  lemma Joined(a: seq<Identity>, b: seq<Identity>)
    ensures AllNew({}, {}, a + b) <==>
            && AllNew({}, {}, a) && AllNew({}, {}, b)
            && forall i, j :: 0 <= i < |a| && 0 <= j < |b| ==> a[i].code != b[j].code && a[i].name != b[j].name
  {
    var ab := a + b;
    assert forall i :: 0 <= i < |a| ==> ab[i] == a[i];
    assert forall j :: 0 <= j < |b| ==> ab[|a| + j] == b[j];
  }

  lemma SecondariesClash(order: seq<nat>)
    ensures AllNew({}, {}, Secondaries(order)) <==> Distinct(order)
    ensures forall i :: 0 <= i < |order| ==>
              |Secondaries(order)[i].code| > 0 && Secondaries(order)[i].code[0] == 'S' &&
              |Secondaries(order)[i].name| > 0 && Secondaries(order)[i].name[0] == 'H'
  {
    forall a: nat, b: nat
      ensures HttpCode(a) == HttpCode(b) <==> a == b
      ensures HttpName(a) == HttpName(b) <==> a == b
    {
      HttpIdentifiersAreInjective(a, b);
    }
  }
}
