/** User balances, and the arithmetic of quota. */
module Balances {

  function Balance(balances: map<nat, int>, user: nat): int {
    if user in balances then balances[user] else 0
  }

  /** IncreaseUserQuota and DecreaseUserQuota refuse negative amounts. */
  function Credited(balances: map<nat, int>, user: nat, amount: int, ok: bool): map<nat, int> {
    if ok && amount >= 0 then balances[user := Balance(balances, user) + amount] else balances
  }

  function Charged(balances: map<nat, int>, user: nat, amount: int, ok: bool): map<nat, int> {
    if ok && amount >= 0 then balances[user := Balance(balances, user) - amount] else balances
  }

  /** Towards zero, as Go's int(float64) and decimal.IntPart do. */
  function Truncate(r: real): int {
    if r >= 0.0 then r.Floor else -(-r).Floor
  }

  /** `q` is `x` without its fraction. */
  predicate IsWholePart(q: int, x: real) {
    if x >= 0.0 then q as real <= x < q as real + 1.0 else q as real - 1.0 < x <= q as real
  }

  lemma TruncateIsWholePart(x: real)
    ensures IsWholePart(Truncate(x), x)
  {
  }

  lemma WholePartIsUnique(p: int, q: int, x: real)
    requires IsWholePart(p, x) && IsWholePart(q, x)
    ensures p == q
  {
  }
}
