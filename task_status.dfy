/**
 * Task status codes and the rounding of a fine-grained raw status to its
 * coarse bucket (`BaseTask#getStatus`).
 *
 * The `TaskStatus` enumeration lives in `Task.ts`, which is not part of this
 * model; its three anchors are taken to be 0, 100 and 200.
 */
module TaskStatus {

  const PENDING: int := 0
  const IN_PROGRESS: int := 100
  const DONE: int := 200

  /** Width of one status bucket: the divisor used when rounding. */
  const BUCKET: int := 100

  /** Integer division truncated toward zero, the quotient that goes with JavaScript's `%`. */
  function TruncDiv(a: int, n: int): int
    requires n > 0
  {
    if a >= 0 then a / n else -((-a) / n)
  }

  /**
   * JavaScript's `%` on integers: the remainder of division truncated toward
   * zero, so it takes the sign of the dividend (Dafny's own `%` never does).
   */
  function TruncRem(a: int, n: int): (r: int)
    requires n > 0
    ensures a == n * TruncDiv(a, n) + r
    ensures -n < r < n
    ensures a >= 0 ==> r >= 0
    ensures a <= 0 ==> r <= 0
  {
    if a >= 0 then a % n else -((-a) % n)
  }

  /**
   * `getStatus()`: the raw status minus its truncated remainder by 100, with
   * a zero result replaced by PENDING. Non-negative codes round down to a
   * multiple of 100, negative ones round up (toward zero).
   */
  function Round(raw: int): (s: int)
    ensures s % BUCKET == 0
    ensures raw >= 0 ==> 0 <= s <= raw < s + BUCKET
    ensures raw <= 0 ==> s - BUCKET < raw <= s <= 0
  {
    var roundedDown := raw - TruncRem(raw, BUCKET);
    if roundedDown != 0 then roundedDown else PENDING
  }

  /** The rounding is determined by its window: the one multiple of 100 within reach. */
  lemma RoundUnique(raw: int, m: int)
    requires m % BUCKET == 0
    requires raw >= 0 ==> m <= raw < m + BUCKET
    requires raw <= 0 ==> m - BUCKET < raw <= m
    ensures Round(raw) == m
  {
  }

  /** An independent reference: for non-negative codes, Euclidean division times 100. */
  lemma RoundIsFloor(raw: int)
    requires raw >= 0
    ensures Round(raw) == (raw / BUCKET) * BUCKET
  {
  }

  /** Truncation is symmetric about zero. */
  lemma RoundIsOdd(raw: int)
    ensures Round(-raw) == -Round(raw)
  {
  }

  /** Rounding an already rounded status changes nothing. */
  lemma RoundIdempotent(raw: int)
    ensures Round(Round(raw)) == Round(raw)
  {
  }

  /** A larger raw code never yields a smaller bucket. */
  lemma RoundMonotone(a: int, b: int)
    requires a <= b
    ensures Round(a) <= Round(b)
  {
  }

  /** Every anchor is its own bucket, and a sub-code rounds to its anchor. */
  lemma RoundAnchors()
    ensures Round(PENDING) == PENDING
    ensures Round(IN_PROGRESS) == IN_PROGRESS
    ensures Round(DONE) == DONE
    ensures Round(IN_PROGRESS + 1) == IN_PROGRESS
  {
  }

  /** Between PENDING and the first code past DONE's bucket, rounding yields one of the anchors. */
  lemma RoundToAnchor(raw: int)
    requires PENDING <= raw < DONE + BUCKET
    ensures Round(raw) == if raw < IN_PROGRESS then PENDING
                          else if raw < DONE then IN_PROGRESS
                          else DONE
  {
  }

  /** The PENDING fallback is reached exactly by the codes within one bucket of zero. */
  lemma RoundIsPending(raw: int)
    ensures Round(raw) == PENDING <==> -BUCKET < raw < BUCKET
  {
  }
}
