/** Request identifiers (Conn.nextID in rcon/conn.go): a signed 32-bit counter that skips everything that
    is not positive. */
module RequestIds {
  import opened Wire

  const PERIOD := 0x7fff_ffff

  /** One call of nextID: increment with 32-bit wrap-around, then replace a non-positive value by 1. */
  function NextId(id: Int32): (next: Int32)
    ensures next > 0
  {
    var wrapped := AsInt32(AsUint32(id + 1));
    if wrapped <= 0 then 1 else wrapped
  }

  /** The counter after `issued` calls on a fresh connection; for issued >= 1, the identifier last issued. */
  function IdAfter(issued: nat): (id: Int32)
    ensures id >= 0
  {
    if issued == 0 then 0 else NextId(IdAfter(issued - 1))
  }

  /** The k-th identifier counts 1 .. 2^31-1 round and round. */
  lemma {:induction false} IdFormula(k: nat)
    requires k >= 1
    ensures IdAfter(k) == (k - 1) % PERIOD + 1
  {
    hide NextId;
    NextIdStep(IdAfter(k - 1));
    if k > 1 {
      IdFormula(k - 1);
      ModStep(k - 2);
    }
  }

  lemma NextIdStep(id: Int32)
    requires id >= 0
    ensures NextId(id) == if id == PERIOD then 1 else id + 1
  {
  }

  lemma ModStep(n: nat)
    ensures (n + 1) % PERIOD == if n % PERIOD == PERIOD - 1 then 0 else n % PERIOD + 1
  {
  }

  lemma ModDifference(a: nat, b: nat)
    requires a <= b
    ensures a % PERIOD == b % PERIOD <==> (b - a) % PERIOD == 0
  {
    var q, r := a / PERIOD, b / PERIOD;
    assert a == PERIOD * q + a % PERIOD && b == PERIOD * r + b % PERIOD;
    assert b - a == PERIOD * (r - q) + (b % PERIOD - a % PERIOD);
  }

  /** Two issued identifiers are equal exactly when they were issued a multiple of 2^31-1 calls apart, so
      any 2^31-1 consecutive ones are pairwise distinct. */
  lemma SameIdIff(i: nat, j: nat)
    requires 1 <= i <= j
    ensures IdAfter(i) == IdAfter(j) <==> (j - i) % PERIOD == 0
  {
    hide IdAfter;
    IdFormula(i);
    IdFormula(j);
    ModDifference(i - 1, j - 1);
  }

  lemma RecentIdsDiffer(i: nat, j: nat)
    requires 1 <= i < j && j - i < PERIOD
    ensures IdAfter(i) != IdAfter(j)
  {
    hide IdAfter;
    SameIdIff(i, j);
  }

  /** Every reachable counter value is some IdAfter: the counters the lemmas speak of lose nothing. */
  lemma EveryPositiveIdIsIssued(id: Int32)
    requires id > 0
    ensures IdAfter(id) == id
  {
    hide IdAfter;
    IdFormula(id);
  }
}
