/** Where forward error correction meets the transport: recovered payloads are genuine packets. */
module FecTransport {
  import opened Base
  import opened ErasureCode
  import opened Fec
  import opened FecSoundness
  import T = Transport

  /**
   For the log of any run, with burned numbers or without, and an encoder that
   starts anywhere and never flushes early: if every block is harmless, each
   payload the decoder recovers is the one the transport's sender queued under
   that number, so that re-entering it is an arrival the transport allows.
   */
  lemma RecoveredIsGenuine(capacity: nat, run: seq<T.Event>, code: Code, from: nat, es: seq<Event>)
    requires var log := T.Exec(T.Initial(capacity), run).snd.log;
             Mds(code) && Sized(log) && AllHarmless(code, log, from) && Arrivals(code, log, from, es)
    ensures var log := T.Exec(T.Initial(capacity), run).snd.log;
            forall r <- DecodeAll(code, log, es).1 :: T.Genuine(log, r.n, r.payload)
  {
    DecoderIsSound(code, T.Exec(T.Initial(capacity), run).snd.log, from, es);
  }
}
