/**
 The send-window arithmetic of `handleACK` and `retransmissionLoop`.
 The bandwidth estimate enters only through the target it yields.
 */
module CongestionWindow {
  import opened Base

  const INITIAL_WINDOW: int := 256
  const INITIAL_SSTHRESH: int := 1024
  const MIN_WINDOW: int := 16
  const MAX_WINDOW: int := 2048

  datatype Window = Window(size: int, ssthresh: int)

  const INITIAL := Window(INITIAL_WINDOW, INITIAL_SSTHRESH)

  /** One ACK while a bandwidth estimate exists; `raw` is the unclamped target. */
  function Toward(size: int, raw: int): int {
    var target := Clamp(MIN_WINDOW, MAX_WINDOW, raw);
    if size < target then Min(size + Max(size / 10, 16), MAX_WINDOW)
    else if size > target then Max(size - Max(size / 20, 8), MIN_WINDOW)
    else size
  }

  /** One ACK before any bandwidth estimate exists. */
  function SlowStart(w: Window): Window {
    w.(size := if w.size < w.ssthresh then Min(w.size * 2, MAX_WINDOW) else Min(w.size + 1, MAX_WINDOW))
  }

  /** One ACK; `target` is None on the slow-start branch. */
  function OnAck(w: Window, target: Option<int>): Window {
    match target
    case Some(raw) => w.(size := Toward(w.size, raw))
    case None => SlowStart(w)
  }

  /** One retransmission cycle that found a timed-out packet. */
  function OnTimeout(w: Window): Window {
    var ssthresh := Max(w.size * 85 / 100, MIN_WINDOW);
    Window(ssthresh, ssthresh)
  }

  datatype Event = Acked(target: Option<int>) | TimedOut

  function Apply(w: Window, es: seq<Event>): Window {
    if es == [] then w
    else
      var p := Apply(w, es[..|es| - 1]);
      match es[|es| - 1]
      case Acked(target) => OnAck(p, target)
      case TimedOut => OnTimeout(p)
  }

  ghost predicate Bounded(w: Window) {
    MIN_WINDOW <= w.size <= MAX_WINDOW && MIN_WINDOW <= w.ssthresh
  }

  lemma OnAckBounded(w: Window, target: Option<int>)
    requires Bounded(w)
    ensures Bounded(OnAck(w, target))
  {
  }

  lemma {:induction false} RunStaysBounded(es: seq<Event>)
    ensures Bounded(Apply(INITIAL, es))
  {
    if es != [] {
      RunStaysBounded(es[..|es| - 1]);
    }
  }

  // ---- convergence to a constant target ---------------------------------

  /** Lower edge: the largest step down from just above the target. */
  function BandLow(target: int): int {
    Max((target + 1) - Max((target + 1) / 20, 8), MIN_WINDOW)
  }

  /** Upper edge: the largest step up from just below the target. */
  function BandHigh(target: int): int {
    Min((target - 1) + Max((target - 1) / 10, 16), MAX_WINDOW)
  }

  ghost predicate InBand(size: int, target: int) {
    BandLow(target) <= size <= BandHigh(target)
  }

  /** ACKs that may pass before the window enters the band. */
  function AcksToBand(size: int, target: int): nat {
    if BandLow(target) <= size <= BandHigh(target) then 0
    else if size < target then (target - size + 15) / 16
    else (size - target + 7) / 8
  }

  function Repeat(size: int, target: int, acks: nat): int
    decreases acks
  {
    if acks == 0 then size else Repeat(Toward(size, target), target, acks - 1)
  }

  lemma StepKeepsBand(size: int, target: int)
    requires MIN_WINDOW <= target <= MAX_WINDOW && InBand(size, target)
    ensures InBand(Toward(size, target), target)
  {
  }

  lemma StepApproachesBand(size: int, target: int)
    requires MIN_WINDOW <= target <= MAX_WINDOW && MIN_WINDOW <= size <= MAX_WINDOW
    requires !InBand(size, target)
    ensures AcksToBand(Toward(size, target), target) < AcksToBand(size, target)
    ensures MIN_WINDOW <= Toward(size, target) <= MAX_WINDOW
  {
  }

  lemma {:induction false} RepeatConverges(size: int, target: int, acks: nat)
    requires MIN_WINDOW <= target <= MAX_WINDOW && MIN_WINDOW <= size <= MAX_WINDOW
    requires acks >= AcksToBand(size, target)
    ensures InBand(Repeat(size, target, acks), target)
    ensures AcksToBand(size, target) <= 254
    decreases acks
  {
    if acks > 0 {
      if InBand(size, target) {
        StepKeepsBand(size, target);
      } else {
        StepApproachesBand(size, target);
      }
      RepeatConverges(Toward(size, target), target, acks - 1);
    }
  }

  /** `n` ACKs that find the same unclamped target. */
  function Acks(raw: int, n: nat): seq<Event> {
    seq(n, _ => Acked(Some(raw)))
  }

  lemma {:induction false} RepeatLast(size: int, target: int, n: nat)
    ensures Repeat(size, target, n + 1) == Toward(Repeat(size, target, n), target)
    decreases n
  {
    if n > 0 {
      RepeatLast(Toward(size, target), target, n - 1);
    }
  }

  lemma {:induction false} ApplyRepeats(w: Window, raw: int, n: nat)
    ensures Apply(w, Acks(raw, n)).size == Repeat(w.size, Clamp(MIN_WINDOW, MAX_WINDOW, raw), n)
  {
    if n > 0 {
      assert Acks(raw, n)[..n - 1] == Acks(raw, n - 1);
      ApplyRepeats(w, raw, n - 1);
      RepeatLast(w.size, Clamp(MIN_WINDOW, MAX_WINDOW, raw), n - 1);
    }
  }

  /**
   From the window of any run, once ACKs find the same target, whatever
   integer it is, the window enters the band around the clamped target within
   AcksToBand ACKs, at most 254, and never leaves it again.
   */
  lemma WindowConverges(past: seq<Event>, raw: int, n: nat)
    ensures var w, target := Apply(INITIAL, past), Clamp(MIN_WINDOW, MAX_WINDOW, raw);
            && AcksToBand(w.size, target) <= 254
            && (n >= AcksToBand(w.size, target) ==> InBand(Apply(w, Acks(raw, n)).size, target))
  {
    var w, target := Apply(INITIAL, past), Clamp(MIN_WINDOW, MAX_WINDOW, raw);
    RunStaysBounded(past);
    RepeatConverges(w.size, target, Max(n, AcksToBand(w.size, target)));
    ApplyRepeats(w, raw, n);
  }

  // ---- how far one event moves the window ---------------------------------

  /**
   In every run an ACK that finds a target moves the window toward it by a tenth
   or at least 16 packets up, by a twentieth or at least 8 down, within 16 and
   2048, and not at all if the window is on the clamped target.
   */
  lemma TargetMoves(past: seq<Event>, raw: int)
    ensures var w, v := Apply(INITIAL, past), Apply(INITIAL, past + [Acked(Some(raw))]);
            var goal := if raw < 16 then 16 else if raw > 2048 then 2048 else raw;
            && 16 <= w.size <= 2048 && v.ssthresh == w.ssthresh
            && (w.size == goal ==> v.size == goal)
            && (w.size < goal ==>
                  v.size == 2048
                  || (v.size - w.size >= 16 && (v.size - w.size == 16 || 10 * (v.size - w.size) <= w.size)
                      && w.size < 10 * (v.size - w.size) + 10 && v.size < 2048))
            && (w.size < goal ==> v.size > w.size && v.size - w.size <= Max(16, w.size / 10))
            && (w.size > goal ==>
                  v.size == 16
                  || (w.size - v.size >= 8 && (w.size - v.size == 8 || 20 * (w.size - v.size) <= w.size)
                      && w.size < 20 * (w.size - v.size) + 20))
            && (w.size > goal ==> v.size < w.size && w.size - v.size <= Max(8, w.size / 20))
  {
    RunStaysBounded(past);
    assert (past + [Acked(Some(raw))])[..|past|] == past;
  }

  function NoEstimate(n: nat): seq<Event> {
    seq(n, _ => Acked(None))
  }

  lemma PowerDoubles(size: nat, power: nat)
    ensures size * (2 * power) == 2 * (size * power)
  {
  }

  /** Below the threshold every ACK without an estimate doubles the window. */
  lemma {:induction false} SlowStartDoubles(past: seq<Event>, n: nat)
    requires var w := Apply(INITIAL, past); n > 0 ==> w.size * Power2(n - 1) < w.ssthresh
    ensures var w := Apply(INITIAL, past);
            Apply(w, NoEstimate(n)) == w.(size := Min(w.size * Power2(n), 2048))
  {
    var w := Apply(INITIAL, past);
    RunStaysBounded(past);
    if n == 0 {
      assert w.size * Power2(0) == w.size;
    } else {
      PowerDoubles(w.size, Power2(n - 1));
      if n > 1 {
        PowerDoubles(w.size, Power2(n - 2));
      }
      SlowStartDoubles(past, n - 1);
      assert NoEstimate(n)[..n - 1] == NoEstimate(n - 1);
    }
  }

  /** From the threshold on it grows by one. */
  lemma {:induction false} ThresholdGrowsByOne(past: seq<Event>, n: nat)
    requires var w := Apply(INITIAL, past); w.size >= w.ssthresh
    ensures var w := Apply(INITIAL, past);
            Apply(w, NoEstimate(n)) == w.(size := Min(w.size + n, 2048))
  {
    RunStaysBounded(past);
    if n > 0 {
      ThresholdGrowsByOne(past, n - 1);
      assert NoEstimate(n)[..n - 1] == NoEstimate(n - 1);
    }
  }

  /**
   In every run a retransmission cycle that found a late packet cuts the window
   to 85 hundredths, rounded down, but not below 16, and the threshold with it.
   */
  lemma TimeoutCuts(past: seq<Event>)
    ensures var w, v := Apply(INITIAL, past), Apply(INITIAL, past + [TimedOut]);
            && v.ssthresh == v.size >= 16 && v.size <= w.size
            && (v.size > 16 ==> 100 * v.size <= 85 * w.size < 100 * v.size + 100)
            && (v.size == 16 ==> 85 * w.size < 1700)
  {
    RunStaysBounded(past);
    assert (past + [TimedOut])[..|past|] == past;
  }
}
