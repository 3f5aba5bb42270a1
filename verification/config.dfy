/**
 * The configuration options the balancer reads (`g_conf()->mds_bal_*`,
 * `mds_thrash_exports` and the balancer's own copies of the fragmentation
 * options), as one value.
 */
module Configs {

  datatype Config = Config(
    /** `mds_bal_mode`: how `mds_pop_load` weighs a rank's load. */
    balMode: int,
    /** `mds_bal_interval`, in seconds. */
    balInterval: int,
    /** `mds_bal_max_until`, in seconds of uptime; negative switches it off. */
    balMaxUntil: int,
    /** `mds_bal_max`: how many heartbeat rounds rank 0 starts. */
    balMax: int,
    /** `mds_bal_sample_interval`, in seconds. */
    sampleInterval: real,
    /** `mds_bal_min_rebalance`: how far above the target a rank must be to count as overloaded. */
    minRebalance: real,
    /** `mds_bal_ifenable`: 0 plans with the heartbeat balancer, anything else with the imbalance factor. */
    ifEnable: int,
    /** `mds_bal_ifthreshold`. */
    ifThreshold: real,
    /** `mds_thrash_exports`. */
    thrashExports: bool,
    /** `bal_fragment_dirs`. */
    fragmentDirs: bool,
    /** `bal_fragment_interval`, in seconds. */
    fragmentInterval: int,
    /** `mds_bal_split_size`. */
    splitSize: int,
    /** `mds_bal_split_rd`, `mds_bal_split_wr`: the hit rates that make a fragment hot. */
    splitRd: real,
    splitWr: real,
    /** `mds_bal_split_bits`. */
    splitBits: int,
    /** `mds_bal_need_max`, `mds_bal_need_min`, `mds_bal_midchunk`, `mds_bal_min_start`: fractions of the load still needed. */
    needMax: real,
    needMin: real,
    midChunk: real,
    minStart: real,
    /** `mds_bal_frag`: 0 selects the hash placement of small fragments. */
    balFrag: int,
    /** `mds_bal_idle_threshold`. */
    idleThreshold: real)
}
