/** The printer's two tunables and how a caller's partial configuration is
    merged over the defaults (`createDefaultConfig`, `mergeConfig`). */
module Configuration {
  import opened Wrappers

  /** A caller-supplied configuration; `None` is an unset (nil) field. */
  datatype Config = Config(maxPrintedSliceItems: Option<int>, floatPrecision: Option<int>)

  /** A fully resolved configuration, as the printer reads it. */
  datatype Settings = Settings(maxPrintedSliceItems: int, floatPrecision: int)

  /** At most three slice items and two fractional digits by default. */
  const Defaults: Settings := Settings(3, 2)

  /** Each field the caller set replaces the corresponding field of `base`;
      a nil configuration, or one with no field set, leaves `base` as is. */
  function MergeConfig(base: Settings, c: Option<Config>): (r: Settings)
    ensures c.None? ==> r == base
    ensures c.Some? && c.value.maxPrintedSliceItems.Some? ==>
              r.maxPrintedSliceItems == c.value.maxPrintedSliceItems.value
    ensures (c.None? || c.value.maxPrintedSliceItems.None?) ==>
              r.maxPrintedSliceItems == base.maxPrintedSliceItems
    ensures c.Some? && c.value.floatPrecision.Some? ==>
              r.floatPrecision == c.value.floatPrecision.value
    ensures (c.None? || c.value.floatPrecision.None?) ==>
              r.floatPrecision == base.floatPrecision
  {
    match c
    case None => base
    case Some(Config(items, precision)) =>
      Settings(
        if items.Some? then items.value else base.maxPrintedSliceItems,
        if precision.Some? then precision.value else base.floatPrecision)
  }

  /** An empty configuration behaves exactly like no configuration. */
  lemma EmptyConfigIsNoConfig(base: Settings)
    ensures MergeConfig(base, Some(Config(None, None))) == MergeConfig(base, None)
  {
  }

  /** Merging the same configuration twice changes nothing further. */
  lemma MergeIdempotent(base: Settings, c: Option<Config>)
    ensures MergeConfig(MergeConfig(base, c), c) == MergeConfig(base, c)
  {
  }
}
