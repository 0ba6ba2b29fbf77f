/**
  Version times. A hybrid time is modelled by its physical component in
  microseconds (every time in the scenarios is built with FromMicros, so the
  logical component is always zero). A DocHybridTime adds the write id that
  orders the writes of one batch sharing a hybrid time.
 */
module HybridTimes {
  import opened Wrappers

  type HybridTime = nat

  /** HybridTime::kMin, the time a PENDING status result carries. */
  const kMinHybridTime: HybridTime := 0

  datatype DocHybridTime = DocHybridTime(hybridTime: HybridTime, writeId: nat)

  /** `a` is strictly older than `b`: hybrid time first, then write id. */
  predicate Before(a: DocHybridTime, b: DocHybridTime) {
    a.hybridTime < b.hybridTime || (a.hybridTime == b.hybridTime && a.writeId < b.writeId)
  }

  /** A version is inside a read ceiling when its hybrid time is not after it
      (the ceiling carries the largest write id, so every write id of that time is in). */
  predicate VisibleAt(t: DocHybridTime, readTime: HybridTime) {
    t.hybridTime <= readTime
  }

  /** HybridClock::AddPhysicalTimeToHybridTime, with the delta in microseconds. */
  function AddPhysicalMicros(t: HybridTime, micros: nat): (r: HybridTime)
    ensures r >= t
  {
    t + micros
  }

  /** MonoDelta::FromMilliseconds, expressed in microseconds. */
  function Millis(ms: nat): (r: nat)
    ensures r == 1000 * ms
  {
    ms * 1000
  }

  /** A cell written at `writeTime` with a TTL has expired once the read time
      exceeds write time + TTL; a cell without a TTL never expires. */
  predicate HasExpired(writeTime: HybridTime, ttl: Option<nat>, readTime: HybridTime) {
    ttl.Some? && readTime > AddPhysicalMicros(writeTime, ttl.value)
  }

  /** Expiry is monotone: once expired, a cell stays expired at every later read time. */
  lemma ExpiryIsMonotone(writeTime: HybridTime, ttl: Option<nat>, t1: HybridTime, t2: HybridTime)
    requires t1 <= t2 && HasExpired(writeTime, ttl, t1)
    ensures HasExpired(writeTime, ttl, t2)
  {
  }
}
