/**
 Resolving the chunk size of the fine-grained overlap between generation and training, and the check
 that a window of requests holds a whole number of updates.
 */
module ChunkSize {
  import opened Common
  import opened Division

  datatype Granularity = Whole | MiniBatch | MicroBatch | Unknown

  /** Batch sizes are in prompts; a prompt has `rolloutN` samples. */
  datatype Config = Config(
    granularity: Granularity,
    multiplier: int,
    trainBatch: nat,
    miniBatch: nat,
    rolloutN: nat,
    dynamicBatch: bool,
    microPerGpu: Option<nat>)

  /** The settings that make sense before anything is divided. */
  predicate Supported(c: Config) {
    && c.multiplier >= 1 && !c.granularity.Unknown?
    && (c.granularity.MicroBatch? ==> !c.dynamicBatch && c.microPerGpu.Some?)
  }

  /** Samples in a chunk: never more than a mini batch unless asked for, and never more than the whole batch. */
  function Samples(c: Config, dp: nat): nat
    requires Supported(c)
  {
    var mini, full := Times(c.miniBatch, c.rolloutN), Times(c.trainBatch, c.rolloutN);
    match c.granularity
    case MicroBatch => Smaller(Smaller(Times(Times(c.microPerGpu.value, dp), c.multiplier), mini), full)
    case MiniBatch => Smaller(Times(mini, c.multiplier), full)
    case _ => full
  }

  /** The granularity that is left when a chunk outgrows the mini batch or the whole batch. */
  function Effective(c: Config, dp: nat): Granularity
    requires Supported(c)
  {
    var mini, full := Times(c.miniBatch, c.rolloutN), Times(c.trainBatch, c.rolloutN);
    match c.granularity
    case MicroBatch =>
      var micro := Times(Times(c.microPerGpu.value, dp), c.multiplier);
      if Smaller(micro, mini) > full then Whole else if micro > mini then MiniBatch else MicroBatch
    case MiniBatch => if Times(mini, c.multiplier) > full then Whole else MiniBatch
    case _ => Whole
  }

  /** Whole groups of prompts, the same number for every data-parallel rank. */
  predicate Divisible(samples: nat, rolloutN: nat, dp: nat) {
    0 < rolloutN && samples % rolloutN == 0 && 0 < dp && (samples / rolloutN) % dp == 0
  }

  /** The effective granularity and the groups per chunk. */
  method Resolve(c: Config, dp: nat) returns (r: Result<(Granularity, nat)>)
    ensures r.Ok? <==> Supported(c) && (c.granularity.Whole? || Divisible(Samples(c, dp), c.rolloutN, dp))
    ensures r.Ok? ==> r.value.0 == Effective(c, dp)
    ensures r.Ok? && c.granularity.Whole? ==> r.value == (Whole, c.trainBatch)
    ensures r.Ok? && !c.granularity.Whole? ==> Times(r.value.1, c.rolloutN) == Samples(c, dp) && r.value.1 % dp == 0
    ensures r.Ok? && r.value.0.Whole? ==> r.value.1 == c.trainBatch
    ensures r.Ok? && r.value.0.MiniBatch? ==> exists m :: 1 <= m && r.value.1 == Times(c.miniBatch, m)
  {
    if c.multiplier < 1 {
      return Raised;
    }
    var full := Times(c.trainBatch, c.rolloutN);
    var granularity := c.granularity;
    if granularity == Whole {
      return Ok((Whole, c.trainBatch));
    }
    var mini := Times(c.miniBatch, c.rolloutN);
    var samples: nat;
    ghost var minis: nat := 1;
    if granularity == MicroBatch {
      if c.dynamicBatch || c.microPerGpu.None? {
        return Raised;
      }
      samples := Times(Times(c.microPerGpu.value, dp), c.multiplier);
      if samples > mini {
        granularity, samples := MiniBatch, mini;
        TimesIsProduct(mini, 1);
      }
    } else if granularity == MiniBatch {
      samples, minis := Times(mini, c.multiplier), c.multiplier;
    } else {
      return Raised;
    }
    if samples > full {
      granularity, samples := Whole, full;
    }
    assert samples == Samples(c, dp);
    if c.rolloutN == 0 || samples % c.rolloutN != 0 {
      return Raised;
    }
    var groups := samples / c.rolloutN;
    if dp == 0 || groups % dp != 0 {
      return Raised;
    }
    Divided(samples, c.rolloutN);
    if granularity.Whole? {
      GroupsOf(c.trainBatch, c.rolloutN, 1);
      TimesIsProduct(full, 1);
      TimesIsProduct(c.trainBatch, 1);
    } else if granularity.MiniBatch? {
      GroupsOf(c.miniBatch, c.rolloutN, minis);
    }
    r := Ok((granularity, groups));
  }

  lemma GroupsOf(batch: nat, n: nat, m: nat)
    requires 0 < n
    ensures Times(Times(batch, n), m) % n == 0 && Times(Times(batch, n), m) / n == Times(batch, m)
  {
    TimesAssociates(batch, n, m);
    TimesCommutes(n, m);
    TimesAssociates(batch, m, n);
    Unique(Times(Times(batch, m), n), n, Times(batch, m), 0);
  }

  /** Requests per window leave no remainder over requests per update. */
  predicate WholeUpdates(groups: nat, miniBatch: nat, perGroup: nat) {
    0 < Times(miniBatch, perGroup) && Times(groups, perGroup) % Times(miniBatch, perGroup) == 0
  }

  /** At mini-batch granularity a window always holds a whole number of actor updates. */
  lemma WindowHoldsWholeUpdates(miniBatch: nat, m: nat, perGroup: nat)
    requires 0 < miniBatch && 0 < perGroup
    ensures WholeUpdates(Times(miniBatch, m), miniBatch, perGroup)
  {
    TimesGrows(miniBatch, 0, perGroup);
    var update := Times(miniBatch, perGroup);
    TimesCommutes(miniBatch, m);
    TimesAssociates(m, miniBatch, perGroup);
    Unique(Times(m, update), update, m, 0);
  }

  /** A window holds whole updates exactly when its groups are whole mini batches. */
  lemma WholeUpdatesMeaning(groups: nat, miniBatch: nat, perGroup: nat)
    requires 0 < miniBatch && 0 < perGroup
    ensures WholeUpdates(groups, miniBatch, perGroup) <==> groups % miniBatch == 0
  {
    var q, left, update := groups / miniBatch, groups % miniBatch, Times(miniBatch, perGroup);
    Divided(groups, miniBatch);
    TimesGrows(miniBatch, 0, perGroup);
    TimesAddLeft(Times(q, miniBatch), left, perGroup);
    TimesAssociates(q, miniBatch, perGroup);
    InRange(left, miniBatch, 0, perGroup);
    Unique(Times(groups, perGroup), update, q, Times(left, perGroup));
    if 0 < left {
      TimesMonotone(1, left, perGroup);
    }
  }

  /** The configurations that resolve, and the groups per chunk they resolve to. */
  predicate Resolves(c: Config, dp: nat) {
    Supported(c) && (c.granularity.Whole? || Divisible(Samples(c, dp), c.rolloutN, dp))
  }

  function ChunkGroups(c: Config, dp: nat): nat
    requires Resolves(c, dp)
  {
    if c.granularity.Whole? then c.trainBatch else Samples(c, dp) / c.rolloutN
  }

  /** Resolve first, then check the window, as the configuration check does. */
  method CheckWindow(c: Config, dp: nat, perGroup: nat) returns (r: Result<(Granularity, nat)>)
    requires 0 < c.miniBatch && 0 < perGroup
    ensures r.Ok? <==> Resolves(c, dp) && ChunkGroups(c, dp) % c.miniBatch == 0
    ensures r.Ok? ==> r.value == (Effective(c, dp), ChunkGroups(c, dp)) && WholeUpdates(r.value.1, c.miniBatch, perGroup)
    ensures Resolves(c, dp) && Effective(c, dp).MiniBatch? ==> r.Ok?
  {
    r := Resolve(c, dp);
    if r.Raised? {
      return;
    }
    if !c.granularity.Whole? {
      Unique(Samples(c, dp), c.rolloutN, r.value.1, 0);
    }
    WholeUpdatesMeaning(r.value.1, c.miniBatch, perGroup);
    if r.value.0.MiniBatch? {
      ghost var m :| 1 <= m && r.value.1 == Times(c.miniBatch, m);
      WindowHoldsWholeUpdates(c.miniBatch, m, perGroup);
    }
    if !WholeUpdates(r.value.1, c.miniBatch, perGroup) {
      r := Raised;
    }
  }
}
