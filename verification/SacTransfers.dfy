/** Simulated token transfers that debit the agent: their sum, its decimal form, and the spending check. */
module SacTransfers {
  import opened Outcome
  import opened Sequences
  import Spending

  // ---------------------------------------------------------------- decimal text

  const DECIMALS: nat := 7
  const UNIT: nat := 10_000_000

  function DigitChar(d: nat): char
    requires d < 10
  {
    "0123456789"[d]
  }

  predicate IsDigit(c: char) {
    '0' <= c <= '9'
  }

  function Digits(n: nat): string {
    if n < 10 then [DigitChar(n)] else Digits(n / 10) + [DigitChar(n % 10)]
  }

  /** `toString` of a big integer. */
  function Show(n: int): string {
    if n < 0 then "-" + Digits(-n) else Digits(n)
  }

  function PadStart(s: string, width: nat): string
    decreases if |s| >= width then 0 else width - |s|
  {
    if |s| >= width then s else PadStart("0" + s, width)
  }

  /** Big-integer division and remainder truncate toward zero. */
  function TruncDiv(a: int, b: nat): int
    requires b > 0
  {
    if a >= 0 then a / b else -((-a) / b)
  }

  function TruncRem(a: int, b: nat): int
    requires b > 0
  {
    if a >= 0 then a % b else -((-a) % b)
  }

  function SacRawToDecimal(raw: int): string {
    Show(TruncDiv(raw, UNIT)) + "." + PadStart(Show(TruncRem(raw, UNIT)), DECIMALS)
  }

  predicate AllDigits(s: string) {
    forall i | 0 <= i < |s| :: IsDigit(s[i])
  }

  function Value(s: string): nat
    requires AllDigits(s)
  {
    if s == "" then 0 else Value(s[..|s| - 1]) * 10 + (s[|s| - 1] as int - '0' as int)
  }

  /** The whole part, with an optional minus sign, completed by `frac` raw units. */
  function ReadWhole(whole: string, frac: nat): Option<int> {
    if AllDigits(whole) then Some(Value(whole) * UNIT + frac)
    else if |whole| > 1 && whole[0] == '-' && AllDigits(whole[1..]) then Some(-(Value(whole[1..]) * UNIT + frac))
    else None
  }

  /** Reads a decimal with exactly seven fraction digits, as a number of raw units. */
  function Parse(s: string): Option<int> {
    var n := |s|;
    if n < DECIMALS + 2 || s[n - DECIMALS - 1] != '.' || !AllDigits(s[n - DECIMALS..]) then None
    else ReadWhole(s[..n - DECIMALS - 1], Value(s[n - DECIMALS..]))
  }

  function Pow10(k: nat): nat {
    if k == 0 then 1 else 10 * Pow10(k - 1)
  }

  lemma {:induction false} DigitsRead(n: nat)
    ensures |Digits(n)| > 0 && AllDigits(Digits(n)) && Value(Digits(n)) == n
  {
    if n >= 10 {
      DigitsRead(n / 10);
      assert Digits(n)[..|Digits(n)| - 1] == Digits(n / 10);
    } else {
      assert Digits(n)[..0] == "";
    }
  }

  lemma {:induction false} DigitsFit(n: nat, k: nat)
    requires k > 0 && n < Pow10(k)
    ensures |Digits(n)| <= k
  {
    if n >= 10 {
      assert Pow10(k) == 10 * Pow10(k - 1) && Pow10(0) == 1;
      DigitsFit(n / 10, k - 1);
    }
  }

  lemma {:induction false} LeadingZero(s: string)
    requires AllDigits(s)
    ensures AllDigits("0" + s) && Value("0" + s) == Value(s)
  {
    if s != "" {
      LeadingZero(s[..|s| - 1]);
      assert ("0" + s)[..|s|] == "0" + s[..|s| - 1];
    } else {
      assert ("0" + s)[..0] == "";
    }
  }

  lemma {:induction false} PaddedReads(s: string, width: nat)
    requires AllDigits(s)
    ensures AllDigits(PadStart(s, width)) && Value(PadStart(s, width)) == Value(s)
    ensures |s| <= width ==> |PadStart(s, width)| == width
    decreases if |s| >= width then 0 else width - |s|
  {
    if |s| < width {
      LeadingZero(s);
      PaddedReads("0" + s, width);
    }
  }

  /** A padded negative remainder keeps its minus sign, at most eight characters from the end. */
  lemma {:induction false} PaddedKeepsMinus(s: string, width: nat, k: nat)
    requires k < |s| && s[k] == '-'
    ensures |PadStart(s, width)| >= |s| && PadStart(s, width)[|PadStart(s, width)| - |s| + k] == '-'
    ensures |PadStart(s, width)| == if |s| >= width then |s| else width
    decreases if |s| >= width then 0 else width - |s|
  {
    if |s| < width { PaddedKeepsMinus("0" + s, width, k + 1); }
  }

  lemma Pow10Of7()
    ensures Pow10(DECIMALS) == UNIT
  {
    assert Pow10(3) == 1000;
    assert Pow10(5) == 100000;
  }

  lemma ReadShown(whole: int, frac: nat)
    ensures ReadWhole(Show(whole), frac) == Some(if whole >= 0 then whole * UNIT + frac else whole * UNIT - frac)
    ensures |Show(whole)| > 0
  {
    if whole >= 0 {
      DigitsRead(whole);
    } else {
      DigitsRead(-whole);
      assert Show(whole)[1..] == Digits(-whole);
      assert !IsDigit(Show(whole)[0]);
    }
  }

  lemma ParseSplits(whole: string, frac: string)
    requires |whole| > 0 && AllDigits(frac) && |frac| == DECIMALS
    ensures Parse(whole + "." + frac) == ReadWhole(whole, Value(frac))
  {
    hide ReadWhole, Value;
    var s := whole + "." + frac;
    assert s[|s| - DECIMALS..] == frac && s[..|s| - DECIMALS - 1] == whole;
  }

  /** A printed whole part followed by seven digits reads back as the whole part times the unit plus the
      digits, with the sign of the whole part. */
  lemma ParseParts(whole: int, frac: string)
    requires AllDigits(frac) && |frac| == DECIMALS
    ensures Parse(Show(whole) + "." + frac)
         == Some(if whole >= 0 then whole * UNIT + Value(frac) else whole * UNIT - Value(frac))
  {
    hide Parse, ReadWhole, Value;
    ReadShown(whole, Value(frac));
    ParseSplits(Show(whole), frac);
  }

  /** The fraction printed for a non-negative amount is seven digits. */
  lemma FractionIsSevenDigits(r: nat)
    requires r < UNIT
    ensures var frac := PadStart(Show(r), DECIMALS);
            |frac| == DECIMALS && AllDigits(frac) && Value(frac) == r
  {
    Pow10Of7();
    DigitsFit(r, DECIMALS);
    DigitsRead(r);
    PaddedReads(Digits(r), DECIMALS);
  }

  /** For every amount from zero on: exactly seven fraction digits, and reading them gives the amount back. */
  lemma PositiveRoundTrip(raw: nat)
    ensures Parse(SacRawToDecimal(raw)) == Some(raw)
    ensures var s := SacRawToDecimal(raw);
            && |s| > 8 && s[|s| - 8] == '.' && AllDigits(s[|s| - 7..]) && AllDigits(s[..|s| - 8])
            && Value(s[|s| - 7..]) == raw % 10_000_000 && Value(s[..|s| - 8]) == raw / 10_000_000
  {
    hide Parse, Value, PadStart;
    var frac := PadStart(Show(raw % UNIT), DECIMALS);
    FractionIsSevenDigits(raw % UNIT);
    ParseParts(raw / UNIT, frac);
    assert SacRawToDecimal(raw) == Show(raw / UNIT) + "." + frac;
    assert SacRawToDecimal(raw)[|SacRawToDecimal(raw)| - DECIMALS..] == frac;
    DigitsRead(raw / UNIT);
    assert SacRawToDecimal(raw)[..|SacRawToDecimal(raw)| - DECIMALS - 1] == Show(raw / UNIT);
  }

  /** A minus sign among the last eight characters is no decimal with seven fraction digits. */
  lemma MinusInFraction(whole: string, frac: string, m: nat)
    requires DECIMALS <= |frac| <= DECIMALS + 1 && m < |frac| && frac[m] == '-'
    requires |frac| == DECIMALS + 1 ==> m == 0
    ensures Parse(whole + "." + frac) == None
  {
    var s := whole + "." + frac;
    assert s[|s| - |frac| + m] == '-';
    if |frac| == DECIMALS {
      assert s[|s| - DECIMALS..][m] == '-';
    }
  }

  lemma NegativeRoundTrip(raw: int)
    requires raw < 0
    ensures Parse(SacRawToDecimal(raw)) == if (-raw) % UNIT == 0 then Some(raw) else None
  {
    hide Parse, Value;
    var q, r := (-raw) / UNIT, (-raw) % UNIT;
    if r == 0 {
      DigitsRead(0);
      PaddedReads(Digits(0), DECIMALS);
      ParseParts(-q, PadStart(Digits(0), DECIMALS));
    } else {
      Pow10Of7();
      DigitsFit(r, DECIMALS);
      var frac := PadStart("-" + Digits(r), DECIMALS);
      PaddedKeepsMinus("-" + Digits(r), DECIMALS, 0);
      MinusInFraction(Show(-q), frac, |frac| - |Digits(r)| - 1);
    }
  }

  /** Printing and reading back gives the raw amount exactly, for every amount the spending check prints
      (those above zero) and otherwise exactly when no fraction of a negative amount has to be printed. */
  lemma RoundTripsExactly(raw: int)
    ensures Parse(SacRawToDecimal(raw)) == Some(raw) <==> raw >= 0 || (-raw) % UNIT == 0
  {
    if raw >= 0 { PositiveRoundTrip(raw); } else { NegativeRoundTrip(raw); }
  }

  // ---------------------------------------------------------------- the events

  /** A decoded contract value. */
  datatype Native = Text(s: string) | BigInt(n: int) | Number(m: int) | OtherValue | Undecodable

  datatype Body = Body(topics: seq<Native>, data: Native)

  datatype Diagnostic = Diagnostic(inSuccessfulCall: bool, body: Option<Body>)

  /** What one event takes from the agent. */
  function Debit(e: Diagnostic, agent: string): int {
    if e.inSuccessfulCall && e.body.Some?
       && |e.body.value.topics| >= 2
       && e.body.value.topics[0] in [Text("transfer"), Text("transfer_from"), Text("burn")]
       && e.body.value.topics[1] == Text(agent)
    then
      match e.body.value.data
      case BigInt(n) => n
      case Number(m) => m
      case _ => 0
    else 0
  }

  function Debits(events: seq<Diagnostic>, agent: string): int {
    if events == [] then 0 else Debits(events[..|events| - 1], agent) + Debit(events[|events| - 1], agent)
  }

  method ExtractSacTransferTotal(events: seq<Diagnostic>, agent: string) returns (total: int)
    ensures total == Debits(events, agent)
  {
    total := 0;
    for k := 0 to |events|
      invariant total == Debits(events[..k], agent)
    {
      assert events[..k + 1][..k] == events[..k];
      var e := events[k];
      if !e.inSuccessfulCall { continue; }
      if e.body.None? { continue; }
      var topics := e.body.value.topics;
      if |topics| == 0 { continue; }
      if !topics[0].Text? { continue; }
      var name := topics[0].s;
      if name != "transfer" && name != "transfer_from" && name != "burn" { continue; }
      if |topics| < 2 { continue; }
      if topics[1] != Text(agent) { continue; }
      if e.body.value.data.BigInt? {
        total := total + e.body.value.data.n;
      } else if e.body.value.data.Number? {
        total := total + e.body.value.data.m;
      }
    }
    assert events[..|events|] == events;
  }

  /** A transfer, a transfer on behalf of the agent, and a burn each take their amount from the agent. */
  lemma EachKindDebits(name: string, agent: string, rest: seq<Native>, n: int)
    requires name == "transfer" || name == "transfer_from" || name == "burn"
    ensures Debits([Diagnostic(true, Some(Body([Text(name), Text(agent)] + rest, BigInt(n))))], agent) == n
    ensures Debits([Diagnostic(true, Some(Body([Text(name), Text(agent)] + rest, Number(n))))], agent) == n
  {
    DebitsOfOne(Diagnostic(true, Some(Body([Text(name), Text(agent)] + rest, BigInt(n)))), agent);
    DebitsOfOne(Diagnostic(true, Some(Body([Text(name), Text(agent)] + rest, Number(n)))), agent);
  }

  lemma DebitsOfOne(e: Diagnostic, agent: string)
    ensures Debits([e], agent) == Debit(e, agent)
  {
    assert [e][..0] == [];
  }

  /** An event takes nothing from the agent if the call failed, if it has no body or too few topics, if it has another
      name or another address is debited, or if its data is no amount. */
  lemma NothingElseDebits(e: Diagnostic, agent: string)
    requires || !e.inSuccessfulCall
             || e.body.None?
             || |e.body.value.topics| < 2
             || (e.body.value.topics[0] != Text("transfer") && e.body.value.topics[0] != Text("transfer_from")
                 && e.body.value.topics[0] != Text("burn"))
             || e.body.value.topics[1] != Text(agent)
             || (!e.body.value.data.BigInt? && !e.body.value.data.Number?)
    ensures Debits([e], agent) == 0
  {
    DebitsOfOne(e, agent);
  }

  /** The total of a concatenation is the sum of the totals. */
  lemma {:induction false} DebitsConcat(a: seq<Diagnostic>, b: seq<Diagnostic>, agent: string)
    ensures Debits(a + b, agent) == Debits(a, agent) + Debits(b, agent)
  {
    if b == [] {
      assert a + b == a;
    } else {
      assert (a + b)[..|a + b| - 1] == a + b[..|b| - 1];
      DebitsConcat(a, b[..|b| - 1], agent);
    }
  }

  lemma DebitsTakeOut(events: seq<Diagnostic>, k: nat, agent: string)
    requires k < |events|
    ensures Debits(events, agent) == Debit(events[k], agent) + Debits(Without(events, k), agent)
  {
    assert events == events[..k] + [events[k]] + events[k + 1..];
    DebitsConcat(events[..k] + [events[k]], events[k + 1..], agent);
    DebitsConcat(events[..k], [events[k]], agent);
    DebitsConcat(events[..k], events[k + 1..], agent);
    assert [events[k]][..0] == [];
  }

  /** The order of the events does not matter. */
  lemma {:induction false} DebitsOfMultiset(a: seq<Diagnostic>, b: seq<Diagnostic>, agent: string)
    requires multiset(a) == multiset(b)
    ensures Debits(a, agent) == Debits(b, agent)
    decreases |a|
  {
    hide Debit, Debits;
    if a == [] {
      assert |multiset(b)| == 0;
    } else {
      DebitsTakeOut(a, 0, agent);
      MultisetTakeOut(a, 0);
      assert a[0] in multiset(b);
      var k :| 0 <= k < |b| && b[k] == a[0];
      DebitsTakeOut(b, k, agent);
      MultisetTakeOut(b, k);
      DebitsOfMultiset(Without(a, 0), Without(b, k), agent);
    }
  }

  // ---------------------------------------------------------------- the spending check

  const MAINNET_SPENDING_CAP_RAW: nat := 10_000 * UNIT

  datatype Verdict = NothingMoved | OverLimit | OverMainnetCap | OverWindow(total: int) | Fits

  /** Checks the simulated total as printed text against the limits, then records it if it will be broadcast. */
  method AssertSacTransfersWithinSpendingLimit(events: seq<Diagnostic>, agent: string, mainnet: bool, broadcast: bool,
                                               tracker: Spending.SpendingTracker, now: int, later: int, up: bool)
    returns (v: Verdict)
    modifies tracker, tracker.table
    ensures var total := Debits(events, agent);
            && (v.NothingMoved? <==> total <= 0)
            && (v.OverLimit? <==> total > 0 && total > tracker.limit)
            && (v.OverMainnetCap? <==>
                  total > 0 && total <= tracker.limit && mainnet && total > 10_000 * 10_000_000)
            && (v.OverWindow? ==> broadcast)
            && (v.NothingMoved? || v.OverLimit? || v.OverMainnetCap? || !broadcast ==>
                  tracker.Model() == old(tracker.Model()))
            && (!v.NothingMoved? && !v.OverLimit? && !v.OverMainnetCap? && broadcast ==>
                  (tracker.Model(), if v.Fits? then Spending.Accepted else Spending.Refused(v.total))
                  == Spending.Do(old(tracker.Model()), tracker.windowMs, tracker.limit,
                                 Spending.Input(now, later, up, Spending.Record(Some(total)))))
  {
    var totalRaw := ExtractSacTransferTotal(events, agent);
    if totalRaw <= 0 {
      return NothingMoved;
    }
    var parsed := Parse(SacRawToDecimal(totalRaw));
    PositiveRoundTrip(totalRaw);
    if parsed.Some? && parsed.value > tracker.limit {
      return OverLimit;
    }
    if parsed.Some? && mainnet && parsed.value > MAINNET_SPENDING_CAP_RAW {
      return OverMainnetCap;
    }
    if broadcast {
      var r := tracker.Record(parsed, now, later, up);
      if r.Refused? {
        return OverWindow(r.total);
      }
    }
    return Fits;
  }
}
