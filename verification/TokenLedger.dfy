/** The balances kept by the token contracts: one number per token and holder.
    A transfer either moves the whole amount or fails and changes nothing. */
module TokenLedger {
  import opened Outcome

  type Address = nat
  type Ledger = map<(Address, Address), int>

  const I128_MAX: int := 0x7FFF_FFFF_FFFF_FFFF_FFFF_FFFF_FFFF_FFFF

  function Bal(m: Ledger, token: Address, holder: Address): int {
    if (token, holder) in m then m[(token, holder)] else 0
  }

  function Set(m: Ledger, token: Address, holder: Address, balance: int): Ledger {
    m[(token, holder) := balance]
  }

  /** Fails on a negative amount, a short balance, or a receiver that would pass the i128 range. */
  function Transfer(m: Ledger, token: Address, from: Address, to: Address, amount: int): Option<Ledger> {
    if amount < 0 || Bal(m, token, from) < amount then None
    else
      var debited := Set(m, token, from, Bal(m, token, from) - amount);
      if Bal(debited, token, to) + amount > I128_MAX then None
      else Some(Set(debited, token, to, Bal(debited, token, to) + amount))
  }

  /** The change of one holder's balance when `amount` goes from `from` to `to`. */
  function Delta(from: Address, to: Address, amount: int, holder: Address): int {
    (if holder == to then amount else 0) - (if holder == from then amount else 0)
  }

  lemma TransferEffect(m: Ledger, token: Address, from: Address, to: Address, amount: int, t: Address, h: Address)
    requires Transfer(m, token, from, to, amount).Some?
    ensures Bal(Transfer(m, token, from, to, amount).value, t, h)
         == Bal(m, t, h) + if t == token then Delta(from, to, amount, h) else 0
    ensures 0 <= Bal(m, t, h) <= I128_MAX ==> 0 <= Bal(Transfer(m, token, from, to, amount).value, t, h) <= I128_MAX
  {
  }

  /** Two transfers along the same route are one transfer of the sum. */
  lemma TransferTwice(m: Ledger, token: Address, from: Address, to: Address, a: int, b: int)
    requires 0 <= a && 0 <= b
    requires Transfer(m, token, from, to, a + b).Some?
    ensures Transfer(m, token, from, to, a).Some?
    ensures Transfer(Transfer(m, token, from, to, a).value, token, from, to, b) == Transfer(m, token, from, to, a + b)
  {
    var first := Transfer(m, token, from, to, a).value;
    TransferEffect(m, token, from, to, a, token, from);
    TransferEffect(m, token, from, to, a, token, to);
    assert Transfer(first, token, from, to, b).Some?;
    assert Transfer(first, token, from, to, b).value == Transfer(m, token, from, to, a + b).value;
  }

  /** What the holders in `hs` own together. */
  ghost function Total(m: Ledger, token: Address, hs: set<Address>): int {
    if hs == {} then 0
    else
      var h :| h in hs;
      Bal(m, token, h) + Total(m, token, hs - {h})
  }

  lemma {:induction false} TotalTakeOut(m: Ledger, token: Address, hs: set<Address>, x: Address)
    requires x in hs
    ensures Total(m, token, hs) == Bal(m, token, x) + Total(m, token, hs - {x})
    decreases |hs|
  {
    var h :| h in hs && Total(m, token, hs) == Bal(m, token, h) + Total(m, token, hs - {h});
    if h != x {
      TotalTakeOut(m, token, hs - {h}, x);
      TotalTakeOut(m, token, hs - {x}, h);
      assert hs - {h} - {x} == hs - {x} - {h};
    }
  }

  lemma {:induction false} TotalSame(m: Ledger, m': Ledger, token: Address, hs: set<Address>)
    requires forall h <- hs :: Bal(m, token, h) == Bal(m', token, h)
    ensures Total(m, token, hs) == Total(m', token, hs)
    decreases |hs|
  {
    if hs != {} {
      var h :| h in hs;
      TotalTakeOut(m, token, hs, h);
      TotalTakeOut(m', token, hs, h);
      TotalSame(m, m', token, hs - {h});
    }
  }

  lemma {:induction false} TotalNonNegative(m: Ledger, token: Address, hs: set<Address>)
    requires forall h <- hs :: Bal(m, token, h) >= 0
    ensures Total(m, token, hs) >= 0
    decreases |hs|
  {
    if hs != {} {
      var h :| h in hs;
      TotalTakeOut(m, token, hs, h);
      TotalNonNegative(m, token, hs - {h});
    }
  }

  /** A transfer between two members of a group leaves the group's total unchanged. */
  lemma TransferKeepsTotal(m: Ledger, token: Address, from: Address, to: Address, amount: int,
                           t: Address, hs: set<Address>)
    requires Transfer(m, token, from, to, amount).Some?
    requires from in hs && to in hs
    ensures Total(Transfer(m, token, from, to, amount).value, t, hs) == Total(m, t, hs)
  {
    var m' := Transfer(m, token, from, to, amount).value;
    forall h <- hs ensures Bal(m', t, h) == Bal(m, t, h) + if t == token then Delta(from, to, amount, h) else 0 {
      TransferEffect(m, token, from, to, amount, t, h);
    }
    TotalTakeOut(m, t, hs, from);
    TotalTakeOut(m', t, hs, from);
    if to != from {
      TotalTakeOut(m, t, hs - {from}, to);
      TotalTakeOut(m', t, hs - {from}, to);
      TotalSame(m, m', t, hs - {from} - {to});
    } else {
      TotalSame(m, m', t, hs - {from});
    }
  }
}
