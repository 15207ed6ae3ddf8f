/** Frame timing shared by the SDL games: SDL_GetTicks() is an unsigned
  * 32-bit millisecond counter, and each frame's delta time is the elapsed
  * time in seconds, clamped so that a stall never produces a huge step. */
module Timing {

  const TicksModulus: int := 0x1_0000_0000

  /** A value of SDL_GetTicks() (Uint32 milliseconds). */
  type Ticks = t: int | 0 <= t < TicksModulus

  /** The largest delta time a frame may use, in seconds. */
  const MaxDeltaTime: real := 0.05

  /** The milliseconds since the last frame, subtracted as Uint32 values,
    * so a counter that has wrapped still gives the true difference. */
  function ElapsedMs(now: Ticks, last: Ticks): (ms: Ticks)
    ensures last <= now ==> ms == now - last
    ensures now < last ==> ms == now + TicksModulus - last
  {
    (now - last) % TicksModulus
  }

  /** A frame's delta time: the wrapped elapsed milliseconds in seconds,
    * cut down to MaxDeltaTime when it is larger. */
  function DeltaTime(now: Ticks, last: Ticks): (dt: real)
    ensures 0.0 <= dt <= MaxDeltaTime
    ensures dt < MaxDeltaTime ==> dt * 1000.0 == ElapsedMs(now, last) as real
  {
    var seconds := ElapsedMs(now, last) as real / 1000.0;
    if seconds > MaxDeltaTime then MaxDeltaTime else seconds
  }

  /** The clamp only bites for frames longer than 50 ms: shorter frames get
    * their true length, longer ones exactly 0.05 s. */
  lemma DeltaTimeClamp(now: Ticks, last: Ticks)
    ensures ElapsedMs(now, last) <= 50 ==> DeltaTime(now, last) * 1000.0 == ElapsedMs(now, last) as real
    ensures ElapsedMs(now, last) > 50 ==> DeltaTime(now, last) == MaxDeltaTime
  {
  }
}
