/**
 LTE time: sample timestamps, frames modulo 1024, subframes modulo 10, and the mapping from a received
 subframe to the one transmitted `sf_ahead` subframes later.  C's truncating division and its 32-bit
 products are written out.
 */
module LteTime {

  /** `frame_tx`, `subframe_tx` and `timestamp_tx` of a job descriptor. */
  datatype Job = Job(frame: int, subframe: int, timestamp: int)

  /** What `subframe_select` answers: downlink, uplink or special. */
  datatype SubframeType = DL | UL | S

  const U32: int := 0x1_0000_0000

  /** `samples_per_tti` of a radio for which a whole frame cycle fits the 32-bit products; 30720 at most in LTE. */
  predicate ValidSpt(spt: nat) {
    spt > 0 && spt * 10240 <= U32
  }

  /** C's division of a signed number by a positive one. */
  function TruncDiv(a: int, b: int): int
    requires b > 0
  {
    if a >= 0 then a / b else -((-a) / b)
  }

  /** C's `%`, which takes the sign of the dividend. */
  function TruncMod(a: int, b: int): int
    requires b > 0
  {
    a - b * TruncDiv(a, b)
  }

  /** `(ts / (samples_per_tti * 10)) & 1023`; the mask of a two's complement number is its residue. */
  function FrameOf(ts: int, spt: nat): int
    requires ValidSpt(spt)
  {
    TruncDiv(ts, spt * 10 % U32) % 1024
  }

  /** `(ts / samples_per_tti) % 10` */
  function SubframeOf(ts: int, spt: nat): int
    requires ValidSpt(spt)
  {
    TruncMod(TruncDiv(ts, spt), 10)
  }

  lemma Fundamental(a: int, b: int)
    requires b > 0
    ensures a == (a / b) * b + a % b && 0 <= a % b < b
  {
  }

  lemma Distribute(x: int, y: int, b: int)
    ensures (x + y) * b == x * b + y * b
  {
  }

  lemma TimesNonNegative(x: nat, y: nat)
    ensures x * y >= 0
  {
  }

  lemma QuotientUnique(b: int, q: int, r: int, q': int, r': int)
    requires 0 <= r < b && 0 <= r' < b && q * b + r == q' * b + r'
    ensures q == q' && r == r'
  {
    if q < q' {
      Distribute(q, q' - q, b);
    } else if q > q' {
      Distribute(q', q - q', b);
    }
  }

  lemma DivUnique(a: int, b: int, q: int, r: int)
    requires 0 <= r < b && a == q * b + r
    ensures a / b == q && a % b == r
  {
    Fundamental(a, b);
    QuotientUnique(b, a / b, a % b, q, r);
  }

  /** Decoding the timestamp of the m-th subframe, anywhere inside the subframe. */
  lemma DecodeAt(m: nat, phase: nat, spt: nat)
    requires ValidSpt(spt) && phase < spt
    ensures m * spt + phase >= 0
    ensures FrameOf(m * spt + phase, spt) == m / 10 % 1024
    ensures SubframeOf(m * spt + phase, spt) == m % 10
  {
    var ts := m * spt + phase;
    DivUnique(ts, spt, m, phase);
    var q, r := m / 10, m % 10;
    TensSplit(q, r, spt);
    assert m == q * 10 + r;
    DivUnique(ts, spt * 10, q, r * spt + phase);
    assert spt * 10 % U32 == spt * 10;
  }

  lemma TensSplit(q: int, r: nat, spt: nat)
    requires r < 10
    ensures (q * 10 + r) * spt == q * (spt * 10) + r * spt
    ensures r * spt <= 9 * spt
  {
    Distribute(q * 10, r, spt);
  }

  /** The branch by which `wakeup_rxtx`, `eNB_top` and `rx_rf` compute the transmit frame. */
  function FrameTx(frame: int, subframe: int, ahead: nat): int {
    if subframe > 9 - ahead then (frame + 1) % 1024 else frame
  }

  function SubframeTx(subframe: int, ahead: nat): int {
    (subframe + ahead) % 10
  }

  function TimestampTx(timestamp: int, ahead: nat, spt: nat): int {
    timestamp + ahead * spt % U32
  }

  /** The job that `wakeup_rxtx` derives from a radio unit's receive time. */
  function JobFor(frame: int, subframe: int, timestamp: int, ahead: nat, spt: nat): Job {
    Job(FrameTx(frame, subframe, ahead), SubframeTx(subframe, ahead), TimestampTx(timestamp, ahead, spt))
  }

  /** A job whose frame and subframe are those its timestamp decodes to. */
  ghost predicate Consistent(job: Job, spt: nat)
    requires ValidSpt(spt)
  {
    job.frame == FrameOf(job.timestamp, spt) && job.subframe == SubframeOf(job.timestamp, spt)
  }

  /** The job for a receive time whose frame and subframe were decoded from the timestamp. */
  function Offered(ts: int, ahead: nat, spt: nat): Job
    requires ValidSpt(spt)
  {
    JobFor(FrameOf(ts, spt), SubframeOf(ts, spt), ts, ahead, spt)
  }

  /** The 32-bit product of at most ten subframes does not wrap. */
  lemma AheadFits(ahead: nat, spt: nat)
    requires ValidSpt(spt) && ahead <= 10
    ensures ahead * spt % U32 == ahead * spt
  {
    assert 0 <= ahead * spt <= 10 * spt;
  }

  /** The job offered `phase` samples into absolute subframe `m`. */
  lemma OfferedAt(m: nat, phase: nat, ahead: nat, spt: nat)
    requires ValidSpt(spt) && phase < spt && ahead <= 10
    ensures Offered(m * spt + phase, ahead, spt)
            == Job((m + ahead) / 10 % 1024, (m + ahead) % 10, (m + ahead) * spt + phase)
  {
    var ts := m * spt + phase;
    DecodeAt(m, phase, spt);
    FrameTxIs(m, ahead);
    assert TimestampTx(ts, ahead, spt) == (m + ahead) * spt + phase by {
      AheadFits(ahead, spt);
      Distribute(m, ahead, spt);
    }
  }

  /**
   For every receive timestamp, and up to ten subframes ahead, the computed transmit frame and subframe are
   exactly what the transmit timestamp decodes to, including across the wrap of the frame number.
   */
  lemma AheadConsistent(ts: nat, ahead: nat, spt: nat)
    requires ValidSpt(spt) && ahead <= 10
    ensures Consistent(Offered(ts, ahead, spt), spt)
  {
    var m, phase := ts / spt, ts % spt;
    Fundamental(ts, spt);
    OfferedAt(m, phase, ahead, spt);
    DecodeAt(m + ahead, phase, spt);
  }

  lemma FrameTxIs(m: nat, ahead: nat)
    requires ahead <= 10
    ensures FrameTx(m / 10 % 1024, m % 10, ahead) == (m + ahead) / 10 % 1024
    ensures SubframeTx(m % 10, ahead) == (m + ahead) % 10
  {
    var q, r := m / 10, m % 10;
    assert (m + ahead) / 10 == q + (r + ahead) / 10;
    assert (q + 1) % 1024 == (q % 1024 + 1) % 1024;
  }

  /** The branch gives the right transmit frame for the m-th subframe. */
  predicate AheadRight(m: nat, ahead: nat) {
    FrameTx(m / 10 % 1024, m % 10, ahead) == (m + ahead) / 10 % 1024
  }

  /**
   Exactly how far ahead the branch is right: for every subframe if and only if `ahead` is at most ten (or,
   after whole cycles of 10240 subframes, ten again).
   */
  lemma AheadRightIff(ahead: nat)
    ensures (forall m: nat :: AheadRight(m, ahead)) <==> ahead <= 10 || ahead % 10240 == 10
  {
    if ahead <= 10 || ahead % 10240 == 10 {
      forall m: nat ensures AheadRight(m, ahead) {
        if ahead <= 10 {
          FrameTxIs(m, ahead);
        } else {
          FrameTxIs(m, 10);
          CycleAway(m, ahead);
        }
      }
    } else {
      CycleAway(0, ahead);
      CycleAway(9, ahead);
      assert !AheadRight(0, ahead) || !AheadRight(9, ahead);
    }
  }

  /** Whole cycles of 10240 subframes do not change the frame number. */
  lemma CycleAway(m: nat, ahead: nat)
    ensures (m + ahead) / 10 % 1024 == (m + ahead % 10240) / 10 % 1024
  {
    var rest := ahead % 10240;
    assert (m + ahead) / 10 == (m + rest) / 10 + 1024 * (ahead / 10240);
  }

  /** The receive time that the UE stub attributes to a transmit subframe: four subframes earlier. */
  function StubRx(frame: int, subframe: int): (int, int) {
    (if subframe < 4 then (frame + 1023) % 1024 else frame, if subframe < 4 then subframe + 6 else subframe - 4)
  }

  /** The stub's mapping and the n+4 mapping undo each other on every frame and subframe. */
  lemma StubInvertsAhead(frame: nat, subframe: nat)
    requires frame < 1024 && subframe < 10
    ensures StubRx(FrameTx(frame, subframe, 4), SubframeTx(subframe, 4)) == (frame, subframe)
    ensures var rx := StubRx(frame, subframe); FrameTx(rx.0, rx.1, 4) == frame && SubframeTx(rx.1, 4) == subframe
  {
    assert ((frame + 1) % 1024 + 1023) % 1024 == frame;
    assert ((frame + 1023) % 1024 + 1) % 1024 == frame;
  }
}
