/** Repeated claims drain the controller in order; the threshold only gates. */
module PlicTheorems {
  import opened Plic

  /** The interrupts software can claim. */
  ghost function Claimable(c: Config): set<nat>
    requires Valid(c)
  {
    set i: nat | i < |c.pending| && Candidate(c, false, i)
  }

  function Drain(c: Config, n: nat): (ids: seq<nat>)
    requires Valid(c)
    ensures |ids| == n
    decreases n
  {
    if n == 0 then [] else [Next(c, false)] + Drain(Claimed(c), n - 1)
  }

  /** A claim removes exactly the interrupt it returns. */
  lemma ClaimRemoves(c: Config)
    requires Valid(c)
    ensures Claimable(Claimed(c)) == Claimable(c) - {Next(c, false)}
  {
    var id, d := Next(c, false), Claimed(c);
    forall i: nat
      ensures i in Claimable(d) <==> i in Claimable(c) && i != id
    {
      assert i < |c.pending| ==> (d.pending[i] == if i == id then false else c.pending[i]);
    }
  }

  lemma NextEmpty(c: Config)
    requires Valid(c)
    ensures Next(c, false) == 0 <==> Claimable(c) == {}
    ensures Next(c, false) != 0 ==> Next(c, false) in Claimable(c)
  {
    var id := Next(c, false);
    if id != 0 {
      assert Candidate(c, false, id);
      assert id in Claimable(c);
    } else {
      forall i: nat
        ensures i !in Claimable(c)
      {
        assert !Candidate(c, false, i);
      }
    }
  }

  /** Ids of a drain: in claiming order, without repetition, all claimable ones first and zeros after. */
  ghost predicate Ordered(c: Config, ids: seq<nat>, k: nat)
    requires Valid(c)
  {
    && (forall i :: 0 <= i < |ids| && i < k ==> ids[i] in Claimable(c))
    && (forall i :: k <= i < |ids| ==> ids[i] == 0)
    && (forall i, j :: 0 <= i < j < |ids| && j < k ==>
          ids[i] < |c.pending| && ids[j] < |c.pending| && ids[i] != ids[j] && Before(c, ids[i], ids[j]))
  }

  /**
    With no new triggers and no reconfiguration, claims return each claimable interrupt once, by
    descending priority and then ascending number, and 0 from then on.
   */
  lemma {:induction false} DrainInOrder(c: Config, n: nat)
    requires Valid(c)
    ensures Ordered(c, Drain(c, n), |Claimable(c)|)
    decreases n
  {
    if n > 0 {
      var id, d := Next(c, false), Claimed(c);
      var rest, ids := Drain(d, n - 1), Drain(c, n);
      DrainInOrder(d, n - 1);
      ClaimRemoves(c);
      NextEmpty(c);
      if id != 0 {
        assert |Claimable(d)| == |Claimable(c)| - 1;
        FirstThenRest(c, d, id, rest);
      } else {
        assert Claimable(d) == {};
      }
    }
  }

  lemma FirstThenRest(c: Config, d: Config, id: nat, rest: seq<nat>)
    requires Valid(c) && id == Next(c, false) && id != 0 && d == Claimed(c)
    requires Claimable(d) == Claimable(c) - {id} && Ordered(d, rest, |Claimable(d)|)
    requires |Claimable(d)| == |Claimable(c)| - 1
    ensures Ordered(c, [id] + rest, |Claimable(c)|)
  {
    var ids, k := [id] + rest, |Claimable(c)|;
    forall i | 0 <= i < |ids| && i < k
      ensures ids[i] in Claimable(c)
    {
      if i > 0 {
        assert rest[i - 1] in Claimable(d);
      } else {
        assert Candidate(c, false, id);
      }
    }
    forall i, j | 0 <= i < j < |ids| && j < k
      ensures ids[i] < |c.pending| && ids[j] < |c.pending| && ids[i] != ids[j] && Before(c, ids[i], ids[j])
    {
      assert rest[j - 1] in Claimable(d);
      assert Candidate(c, false, ids[j]) && ids[j] != id;
      if i > 0 {
        assert rest[i - 1] in Claimable(d);
        assert Before(d, rest[i - 1], rest[j - 1]);
      }
    }
  }

  /** Draining long enough returns every claimable interrupt. */
  lemma {:induction false} DrainComplete(c: Config, n: nat, x: nat)
    requires Valid(c) && x in Claimable(c) && n >= |Claimable(c)|
    ensures x in Drain(c, n)
    decreases n
  {
    NextEmpty(c);
    ClaimRemoves(c);
    var id := Next(c, false);
    assert |Claimable(c)| > 0;
    if x != id {
      assert |Claimable(Claimed(c))| == |Claimable(c)| - 1;
      DrainComplete(Claimed(c), n - 1, x);
    }
  }

  /**
    The check with the threshold is true exactly when the next claim has a priority above the
    threshold, and it then names that claim.
   */
  lemma ThresholdGates(c: Config)
    requires Valid(c)
    ensures Next(c, true) != 0 <==> Next(c, false) != 0 && c.priority[Next(c, false)] > c.threshold
    ensures Next(c, true) != 0 ==> Next(c, true) == Next(c, false)
  {
    var gated, open := Next(c, true), Next(c, false);
    if gated != 0 {
      assert Candidate(c, false, gated);
      assert Candidate(c, true, open);
    }
    if open != 0 && c.priority[open] > c.threshold {
      assert Candidate(c, true, open);
    }
  }
}
