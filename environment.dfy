/** The backend's single shared record of simulated sensor readings, comfort
    thresholds and the child's comfort mode, and the operations that change it.
    Every `random.randint` draw of the backend is a parameter whose range is a
    precondition, so each operation is a deterministic function of its draws. */
module Environment {
  import opened PyText

  /** The value of the shared record at one moment. */
  datatype EnvState = EnvState(
    childMode: string,
    brightnessThreshold: int,
    noiseThreshold: int,
    brightness: int,
    noise: int)

  /** The record as the process starts with it. */
  const InitialState := EnvState("Neutral", 50, 40, 40, 25)

  /** What a state poll reports. */
  datatype StateReport = StateReport(
    brightness: int,
    noise: int,
    brightnessThreshold: int,
    noiseThreshold: int,
    childMode: string,
    exceeded: bool)

  /** A reading is above its comfort limit. */
  predicate Exceeded(s: EnvState)
  {
    s.brightness > s.brightnessThreshold || s.noise > s.noiseThreshold
  }

  // ----------------------------------------------------------------------
  // Mock environment regeneration
  // ----------------------------------------------------------------------

  /** The ranges of the two base draws of the environment regenerator. */
  predicate BaseDrawsInRange(baseBrightness: int, baseNoise: int)
  {
    35 <= baseBrightness <= 75 && 20 <= baseNoise <= 60
  }

  /** New readings from the base draws, shifted by the comfort mode: Calm
      lowers both, Focus caps brightness and lowers noise, any other mode
      keeps the draws; both readings are floored at 10. */
  function Regenerate(s: EnvState, baseBrightness: int, baseNoise: int): (t: EnvState)
    requires BaseDrawsInRange(baseBrightness, baseNoise)
    ensures 10 <= t.brightness <= baseBrightness && 10 <= t.noise <= baseNoise
    ensures s.childMode == "Focus" ==> t.brightness <= 65
    ensures s.childMode != "Calm" && s.childMode != "Focus" ==>
              t.brightness == baseBrightness && t.noise == baseNoise
    ensures t.childMode == s.childMode
    ensures t.brightnessThreshold == s.brightnessThreshold
    ensures t.noiseThreshold == s.noiseThreshold
  {
    var (b, n) :=
      if s.childMode == "Calm" then (baseBrightness - 20, baseNoise - 20)
      else if s.childMode == "Focus" then (Min(65, baseBrightness), baseNoise - 10)
      else (baseBrightness, baseNoise);
    s.(brightness := Max(10, b), noise := Max(10, n))
  }

  /** For the same base draws, Calm gives readings no higher than Focus, and
      Focus no higher than Neutral. */
  lemma ModeOrdering(s: EnvState, baseBrightness: int, baseNoise: int)
    requires BaseDrawsInRange(baseBrightness, baseNoise)
    ensures var calm := Regenerate(s.(childMode := "Calm"), baseBrightness, baseNoise);
            var focus := Regenerate(s.(childMode := "Focus"), baseBrightness, baseNoise);
            var neutral := Regenerate(s.(childMode := "Neutral"), baseBrightness, baseNoise);
            calm.brightness <= focus.brightness <= neutral.brightness &&
            calm.noise <= focus.noise <= neutral.noise
  {
  }

  // ----------------------------------------------------------------------
  // Mock threshold detection
  // ----------------------------------------------------------------------

  /** The ranges of the four draws of threshold detection: two threshold
      shifts whose ranges depend on the mode, then two reading jitters. */
  predicate DetectDrawsInRange(mode: string, shiftB: int, shiftN: int, jitterB: int, jitterN: int)
  {
    (if mode == "Calm" then 10 <= shiftB <= 20 && 5 <= shiftN <= 15
     else if mode == "Focus" then 0 <= shiftB <= 10 && 5 <= shiftN <= 10
     else 0 <= shiftB <= 10 && 0 <= shiftN <= 5) &&
    -5 <= jitterB <= 15 && -5 <= jitterN <= 10
  }

  /** New thresholds derived from the current readings and the mode, then new
      readings jittered around the new thresholds. */
  function Detect(s: EnvState, shiftB: int, shiftN: int, jitterB: int, jitterN: int): (t: EnvState)
    requires DetectDrawsInRange(s.childMode, shiftB, shiftN, jitterB, jitterN)
    // the brightness threshold
    ensures s.childMode == "Calm" ==>
              10 <= t.brightnessThreshold <= Max(10, s.brightness - 10)
    ensures s.childMode == "Focus" ==>
              Min(85, s.brightness) <= t.brightnessThreshold <= 85
    ensures s.childMode != "Calm" && s.childMode != "Focus" ==>
              10 <= t.brightnessThreshold <= Max(10, s.brightness) &&
              t.brightnessThreshold >= s.brightness - 10
    // the noise threshold
    ensures 10 <= t.noiseThreshold
    ensures s.childMode == "Calm" || s.childMode == "Focus" ==>
              t.noiseThreshold <= Max(10, s.noise - 5)
    ensures t.noiseThreshold <= Max(10, s.noise)
    // the new readings around the new thresholds
    ensures t.brightness <= 100 && t.brightness <= t.brightnessThreshold + 15
    ensures t.brightness >= Min(100, t.brightnessThreshold - 5)
    ensures 0 <= t.noise <= t.noiseThreshold + 10
    ensures t.noise >= t.noiseThreshold - 5
    ensures t.childMode == s.childMode
  {
    var (b, n) :=
      if s.childMode == "Calm" then (Max(10, s.brightness - shiftB), Max(10, s.noise - shiftN))
      else if s.childMode == "Focus" then (Min(85, s.brightness + shiftB), Max(10, s.noise - shiftN))
      else (Max(10, s.brightness - shiftB), Max(10, s.noise - shiftN));
    EnvState(s.childMode, b, n, Min(100, b + jitterB), Max(0, n + jitterN))
  }

  // ----------------------------------------------------------------------
  // Auto-adjust
  // ----------------------------------------------------------------------

  /** The level a reading is pulled down to: a margin below its threshold,
      but never below 10. */
  function AdjustTarget(threshold: int, margin: int): int
  {
    Max(10, threshold - margin)
  }

  /** Readings pulled down to a small margin below their thresholds (5 for
      brightness, 3 for noise); a reading already below is left alone. */
  function AutoAdjusted(s: EnvState): (t: EnvState)
    ensures t.brightness <= s.brightness && t.noise <= s.noise
    ensures t.brightness <= Max(10, s.brightnessThreshold - 5)
    ensures t.noise <= Max(10, s.noiseThreshold - 3)
    ensures t.brightness == s.brightness || t.brightness == Max(10, s.brightnessThreshold - 5)
    ensures t.noise == s.noise || t.noise == Max(10, s.noiseThreshold - 3)
    ensures t.childMode == s.childMode
    ensures t.brightnessThreshold == s.brightnessThreshold
    ensures t.noiseThreshold == s.noiseThreshold
  {
    s.(brightness := Min(s.brightness, AdjustTarget(s.brightnessThreshold, 5)),
       noise := Min(s.noise, AdjustTarget(s.noiseThreshold, 3)))
  }

  /** Adjusting a second time changes nothing. */
  lemma AutoAdjustIdempotent(s: EnvState)
    ensures AutoAdjusted(AutoAdjusted(s)) == AutoAdjusted(s)
  {
  }

  /** With both thresholds at least 10, an adjusted state is within its
      thresholds. */
  lemma AutoAdjustClearsExceeded(s: EnvState)
    requires s.brightnessThreshold >= 10 && s.noiseThreshold >= 10
    ensures !Exceeded(AutoAdjusted(s))
  {
  }

  /** Below a threshold of 10 the floor of 10 wins: auto-adjust can leave a
      reading above its threshold. */
  lemma AutoAdjustFloorCanExceed()
    ensures Exceeded(AutoAdjusted(EnvState("Neutral", 5, 40, 60, 25)))
  {
  }

  // ----------------------------------------------------------------------
  // State poll
  // ----------------------------------------------------------------------

  /** The report of a state poll on state `s`. */
  function Report(s: EnvState): (r: StateReport)
    ensures r.exceeded <==> s.brightness > s.brightnessThreshold || s.noise > s.noiseThreshold
    ensures r.brightness == s.brightness && r.noise == s.noise
    ensures r.brightnessThreshold == s.brightnessThreshold && r.noiseThreshold == s.noiseThreshold
    ensures r.childMode == s.childMode
  {
    StateReport(s.brightness, s.noise, s.brightnessThreshold, s.noiseThreshold,
                s.childMode, Exceeded(s))
  }

  /** Thresholds of 30 and 20 with regenerated readings of 50 and 10 (Calm
      mode, base draws 70 and 30) are reported as exceeded, by brightness. */
  lemma ExceededByBrightness(s: EnvState)
    requires s.childMode == "Calm"
    ensures var t := Regenerate(s.(brightnessThreshold := 30, noiseThreshold := 20), 70, 30);
            t.brightness == 50 && t.noise == 10 && Report(t).exceeded
  {
  }

  /** The shared record, updated in place by the backend's endpoints. */
  class Environment {
    var childMode: string
    var brightnessThreshold: int
    var noiseThreshold: int
    var brightness: int
    var noise: int

    /** The record's current value. */
    function Snapshot(): EnvState
      reads this
    {
      EnvState(childMode, brightnessThreshold, noiseThreshold, brightness, noise)
    }

    constructor ()
      ensures Snapshot() == InitialState
    {
      childMode := "Neutral";
      brightnessThreshold := 50;
      noiseThreshold := 40;
      brightness := 40;
      noise := 25;
    }

    /** Replaces both readings with values derived from two base draws. */
    method GenerateEnvironment(baseBrightness: int, baseNoise: int)
      requires BaseDrawsInRange(baseBrightness, baseNoise)
      modifies this
      ensures Snapshot() == Regenerate(old(Snapshot()), baseBrightness, baseNoise)
    {
      var b, n;
      if childMode == "Calm" {
        b := baseBrightness - 20;
        n := baseNoise - 20;
      } else if childMode == "Focus" {
        b := Min(65, baseBrightness);
        n := baseNoise - 10;
      } else {
        b := baseBrightness;
        n := baseNoise;
      }
      brightness := Max(10, b);
      noise := Max(10, n);
    }

    /** Sets new thresholds from the current readings and mode, then new
        readings around them; returns the new thresholds. */
    method DetectThresholds(shiftB: int, shiftN: int, jitterB: int, jitterN: int)
      returns (b: int, n: int)
      requires DetectDrawsInRange(childMode, shiftB, shiftN, jitterB, jitterN)
      modifies this
      ensures Snapshot() == Detect(old(Snapshot()), shiftB, shiftN, jitterB, jitterN)
      ensures b == brightnessThreshold && n == noiseThreshold
    {
      var mode := childMode;
      var baseB := brightness;
      var baseN := noise;
      if mode == "Calm" {
        b := Max(10, baseB - shiftB);
        n := Max(10, baseN - shiftN);
      } else if mode == "Focus" {
        b := Min(85, baseB + shiftB);
        n := Max(10, baseN - shiftN);
      } else {
        b := Max(10, baseB - shiftB);
        n := Max(10, baseN - shiftN);
      }
      brightnessThreshold := b;
      noiseThreshold := n;
      brightness := Min(100, b + jitterB);
      noise := Max(0, n + jitterN);
    }

    /** Reads the two thresholds. */
    method GetThresholds() returns (b: int, n: int)
      ensures b == brightnessThreshold && n == noiseThreshold
    {
      b := brightnessThreshold;
      n := noiseThreshold;
    }

    /** Overwrites both readings; nothing else changes. */
    method SetEnvironment(b: int, n: int)
      modifies this
      ensures Snapshot() == old(Snapshot()).(brightness := b, noise := n)
    {
      brightness := b;
      noise := n;
    }

    /** Overwrites the comfort mode with any text; returns it. */
    method SetChildMode(mode: string) returns (echo: string)
      modifies this
      ensures Snapshot() == old(Snapshot()).(childMode := mode)
      ensures echo == mode
    {
      childMode := mode;
      echo := mode;
    }

    /** Overwrites both thresholds; nothing else changes. */
    method SetThresholds(b: int, n: int)
      modifies this
      ensures Snapshot() == old(Snapshot()).(brightnessThreshold := b, noiseThreshold := n)
    {
      brightnessThreshold := b;
      noiseThreshold := n;
    }

    /** Pulls both readings down towards their thresholds and returns them. */
    method AutoAdjust() returns (b: int, n: int)
      modifies this
      ensures Snapshot() == AutoAdjusted(old(Snapshot()))
      ensures b == brightness && n == noise
    {
      var targetB := Max(10, brightnessThreshold - 5);
      var targetN := Max(10, noiseThreshold - 3);
      brightness := Min(brightness, targetB);
      noise := Min(noise, targetN);
      b := brightness;
      n := noise;
    }

    /** Regenerates the readings, then reports the whole record and whether
        a fresh reading is above its threshold. */
    method GetState(baseBrightness: int, baseNoise: int) returns (report: StateReport)
      requires BaseDrawsInRange(baseBrightness, baseNoise)
      modifies this
      ensures Snapshot() == Regenerate(old(Snapshot()), baseBrightness, baseNoise)
      ensures report == Report(Snapshot())
      ensures report.exceeded <==> brightness > brightnessThreshold || noise > noiseThreshold
    {
      GenerateEnvironment(baseBrightness, baseNoise);
      var exceeded := brightness > brightnessThreshold || noise > noiseThreshold;
      report := StateReport(brightness, noise, brightnessThreshold, noiseThreshold,
                            childMode, exceeded);
    }
  }
}
