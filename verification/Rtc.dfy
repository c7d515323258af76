// The real-time clock: its rate register and the frequency the driver
// believes is programmed.
module Rtc {

  // regA is register A; its low nibble is the rate.
  datatype Clock = Clock(cached: int, regA: int)

  const UNSET := -1

  predicate Supported(freq: int) {
    freq in {2, 4, 8, 16, 32, 64, 128, 256, 512, 1024}
  }

  // The rate nibble of each supported frequency.
  function RateOf(freq: int): (r: int)
    requires Supported(freq)
    ensures 6 <= r <= 15
  {
    if freq == 2 then 0x0F else if freq == 4 then 0x0E else if freq == 8 then 0x0D
    else if freq == 16 then 0x0C else if freq == 32 then 0x0B else if freq == 64 then 0x0A
    else if freq == 128 then 0x09 else if freq == 256 then 0x08 else if freq == 512 then 0x07
    else 0x06
  }

  function Pow2(n: nat): (p: nat)
    ensures p > 0
  {
    if n == 0 then 1 else 2 * Pow2(n - 1)
  }

  // The frequency the hardware runs at: 32768 >> (rate - 1).
  function Hertz(regA: int): int {
    var r := regA % 16;
    if r == 0 then 0 else 32768 / Pow2(r - 1)
  }

  // The driver's cache tells the truth about the hardware.
  predicate Consistent(c: Clock) {
    0 <= c.regA < 256 && Supported(c.cached) && Hertz(c.regA) == c.cached
  }

  // Program a frequency; an unsupported one changes nothing.
  function SetFreq(c: Clock, freq: int): Clock {
    if freq == c.cached || !Supported(freq) then c
    else Clock(freq, c.regA / 16 * 16 + RateOf(freq))
  }

  lemma {:induction false} RateIsRight(freq: int, high: int)
    requires Supported(freq) && 0 <= high < 16
    ensures Hertz(high * 16 + RateOf(freq)) == freq
  {
    assert (high * 16 + RateOf(freq)) % 16 == RateOf(freq);
    Powers();
  }

  lemma {:induction false} Powers()
    ensures Pow2(5) == 32 && Pow2(6) == 64 && Pow2(7) == 128 && Pow2(8) == 256 && Pow2(9) == 512
    ensures Pow2(10) == 1024 && Pow2(11) == 2048 && Pow2(12) == 4096 && Pow2(13) == 8192 && Pow2(14) == 16384
  {
  }

  // With a truthful cache the early return is sound: after a request the
  // hardware runs at the frequency asked for if that is supported, and as
  // before otherwise; and the cache stays truthful.
  lemma {:induction false} SetFreqReachesHardware(c: Clock, freq: int)
    requires Consistent(c)
    ensures Consistent(SetFreq(c, freq))
    ensures Hertz(SetFreq(c, freq).regA) == if Supported(freq) then freq else Hertz(c.regA)
    ensures SetFreq(c, freq).regA / 16 == c.regA / 16
  {
    if Supported(freq) && freq != c.cached {
      RateIsRight(freq, c.regA / 16);
    }
  }

  // Before anything has been programmed the driver has no frequency cached;
  // the initial request for 2 Hz establishes the agreement.
  lemma {:induction false} InitIsConsistent(regA: int)
    requires 0 <= regA < 256
    ensures Consistent(SetFreq(Clock(UNSET, regA), 2))
  {
    RateIsRight(2, regA / 16);
  }

  class Device {
    var clock: Clock

    // The result says whether the request failed, found the frequency
    // already set, or programmed it.
    method SetFrequency(freq: int) returns (result: int)
      modifies this
      ensures clock == SetFreq(old(clock), freq)
      ensures result == if freq == old(clock).cached then 0 else if Supported(freq) then 1 else -1
    {
      if freq == clock.cached {
        return 0;
      }
      var rate;
      match freq {
        case 2 => rate := 0x0F;
        case 4 => rate := 0x0E;
        case 8 => rate := 0x0D;
        case 16 => rate := 0x0C;
        case 32 => rate := 0x0B;
        case 64 => rate := 0x0A;
        case 128 => rate := 0x09;
        case 256 => rate := 0x08;
        case 512 => rate := 0x07;
        case 1024 => rate := 0x06;
        case _ => return -1;
      }
      clock := clock.(cached := freq);
      var prev := clock.regA;
      clock := clock.(regA := prev / 16 * 16 + rate);
      return 1;
    }
  }
}
