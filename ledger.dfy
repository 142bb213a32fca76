/** The `club_balance` table: one balance per team, read as 0 when the row is
    missing, and the clause payment that moves money between two rows. */
module Ledger {
  import opened LeagueTypes

  /** `get_club_balance`: the row's balance, or 0 when the team has no row. */
  function Balance(m: map<TeamId, int>, t: TeamId): (b: int)
    ensures t !in m ==> b == 0
    ensures t in m ==> b == m[t]
  {
    if t in m then m[t] else 0
  }

  /** `UPDATE club_balance SET balance = balance + amount WHERE team_id = t`:
      only the row of `t` changes, by exactly `amount`, and a missing row is
      not created. There is no floor: a negative amount may leave a negative
      balance. */
  function Credit(m: map<TeamId, int>, t: TeamId, amount: int): (r: map<TeamId, int>)
    ensures r.Keys == m.Keys
    ensures forall u :: u in m && u != t ==> r[u] == m[u]
    ensures t in m ==> r[t] == m[t] + amount
  {
    if t in m then m[t := m[t] + amount] else m
  }

  /** The money moved by `accept_clause_payment`: the buyer is debited the price,
      and the selling team, when the offer names one (a team id of 0 counts as
      none), is credited the same amount. */
  function Settle(m: map<TeamId, int>, buyer: TeamId, seller: Option<TeamId>, price: int): (r: map<TeamId, int>)
    ensures r.Keys == m.Keys
    ensures forall u :: u in m && u != buyer && Truthy(seller) != Some(u) ==> r[u] == m[u]
    ensures buyer in m && Truthy(seller) != Some(buyer) ==> r[buyer] == m[buyer] - price
    ensures Truthy(seller).Some? && Truthy(seller).value in m && Truthy(seller).value != buyer ==>
      r[Truthy(seller).value] == m[Truthy(seller).value] + price
    ensures Truthy(seller) == Some(buyer) ==> r == m
  {
    var debited := Credit(m, buyer, -price);
    match Truthy(seller)
    case Some(s) => Credit(debited, s, price)
    case None => debited
  }

  /** The sum of all balances (generic in the key so that the choice of a
      first row needs no witness). */
  ghost function Total<K>(m: map<K, int>): int
    decreases |m|
  {
    if m == map[] then 0 else var k :| k in m; m[k] + Total(m - {k})
  }

  /** The sum does not depend on which row is taken out first. */
  lemma {:induction false} TotalRemove<K>(m: map<K, int>, k: K)
    requires k in m
    ensures Total(m) == m[k] + Total(m - {k})
    decreases |m|
  {
    var j :| j in m && Total(m) == m[j] + Total(m - {j});
    if j != k {
      assert (m - {j}) - {k} == (m - {k}) - {j};
      TotalRemove(m - {j}, k);
      TotalRemove(m - {k}, j);
    }
  }

  /** Changing one row changes the sum by the difference. */
  lemma TotalUpdate(m: map<TeamId, int>, k: TeamId, v: int)
    requires k in m
    ensures Total(m[k := v]) == Total(m) - m[k] + v
  {
    TotalRemove(m, k);
    TotalRemove(m[k := v], k);
    assert m[k := v] - {k} == m - {k};
  }

  /** Crediting an existing row changes the sum by the amount; crediting a
      missing row changes nothing. */
  lemma CreditTotal(m: map<TeamId, int>, t: TeamId, amount: int)
    ensures Total(Credit(m, t, amount)) == if t in m then Total(m) + amount else Total(m)
  {
    if t in m {
      TotalUpdate(m, t, m[t] + amount);
    }
  }

  /** A clause payment between two clubs that both have a balance row moves
      money and creates or destroys none. When the player had no club, the
      price leaves the league. */
  lemma SettleConserves(m: map<TeamId, int>, buyer: TeamId, seller: Option<TeamId>, price: int)
    requires buyer in m
    requires Truthy(seller).Some? ==> Truthy(seller).value in m
    ensures Truthy(seller).Some? ==> Total(Settle(m, buyer, seller, price)) == Total(m)
    ensures Truthy(seller).None? ==> Total(Settle(m, buyer, seller, price)) == Total(m) - price
  {
    var debited := Credit(m, buyer, -price);
    CreditTotal(m, buyer, -price);
    match Truthy(seller)
    case Some(s) =>
      assert Settle(m, buyer, seller, price) == Credit(debited, s, price);
      CreditTotal(debited, s, price);
    case None =>
      assert Settle(m, buyer, seller, price) == debited;
  }

  /** A payment made only when the buyer can afford it leaves the buyer with a
      balance of at least zero, unless the buyer pays itself a negative price. */
  lemma SettleSolvent(m: map<TeamId, int>, buyer: TeamId, seller: Option<TeamId>, price: int)
    requires Balance(m, buyer) >= price
    requires Truthy(seller) != Some(buyer) || price >= 0
    ensures Balance(Settle(m, buyer, seller, price), buyer) >= 0
  {
  }
}
