/** The 32-bit generation counters that tag capability slots, capability nodes and kernel objects. */
module Generations {
  import opened Common

  const PERIOD: nat := U32_MAX

  /** One recycling step: a wrapping increment that skips zero. */
  function NextGeneration(generation: nat): nat
    requires generation <= U32_MAX
  {
    var next := (generation + 1) % U32_SPAN;
    if next == 0 then 1 else next
  }

  /** The generation a slot carries after it has been recycled `epoch` times. */
  function GenerationAt(epoch: nat): (g: nat)
    ensures 1 <= g <= U32_MAX
  {
    1 + epoch % PERIOD
  }

  lemma FirstGeneration()
    ensures GenerationAt(0) == 1
  {
  }

  lemma NextGenerationAdvances(epoch: nat)
    ensures NextGeneration(GenerationAt(epoch)) == GenerationAt(epoch + 1)
  {
    if epoch % PERIOD == PERIOD - 1 {
      assert (epoch + 1) % PERIOD == 0;
    } else {
      assert (epoch + 1) % PERIOD == epoch % PERIOD + 1;
    }
  }

  /** Two recycling counts show the same generation exactly when they differ by full wraps. */
  lemma SameGenerationIffWrapped(older: nat, newer: nat)
    requires older <= newer
    ensures GenerationAt(older) == GenerationAt(newer) <==> (newer - older) % PERIOD == 0
  {
    var q, r := older / PERIOD, older % PERIOD;
    var d := newer - older;
    var dq, dr := d / PERIOD, d % PERIOD;
    assert newer == PERIOD * (q + dq) + (r + dr);
    if r + dr < PERIOD {
      assert newer % PERIOD == r + dr;
    } else {
      assert newer == PERIOD * (q + dq + 1) + (r + dr - PERIOD);
      assert newer % PERIOD == r + dr - PERIOD;
    }
  }
}
