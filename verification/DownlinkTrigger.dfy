// The object an application creates: three trackers behind one threshold.

module DownlinkTrigger {
  import opened Pss
  import opened Network

  // Tracker defaults of the block's factory.
  const TRACK_AFTER: int := 16
  const TRACK_EVERY: int := 8

  class Trigger {
    var psrThreshold: real
    const pss0: PssBlock
    const pss1: PssBlock
    const pss2: PssBlock

    ghost predicate Valid()
      reads this, pss0, pss0.psrData, pss0.cfoData, pss1, pss1.psrData, pss1.cfoData,
            pss2, pss2.psrData, pss2.cfoData
    {
      && pss0 != pss1 && pss0 != pss2 && pss1 != pss2
      && pss0.Valid() && pss1.Valid() && pss2.Valid()
      && psrThreshold >= 1.5
      && pss0.psrThreshold == pss1.psrThreshold == pss2.psrThreshold == psrThreshold
    }

    constructor (psrThreshold: real)
      ensures Valid()
      ensures this.psrThreshold == if psrThreshold > 1.5 then psrThreshold else 1.5
      ensures pss0.cfg == pss1.cfg == pss2.cfg && pss0.cfg.trackAfter == 16 && pss0.cfg.trackEvery == 8
      ensures pss0.hist == pss1.hist == pss2.hist == []
    {
      var t := EnsureSafeThreshold(psrThreshold);
      this.psrThreshold := t;
      pss0 := new PssBlock(t, TRACK_AFTER, TRACK_EVERY);
      pss1 := new PssBlock(t, TRACK_AFTER, TRACK_EVERY);
      pss2 := new PssBlock(t, TRACK_AFTER, TRACK_EVERY);
    }

    // The histories of the trackers, and so their locks, are untouched.
    method SetPsrThreshold(t: real)
      requires Valid()
      modifies this, pss0`psrThreshold, pss1`psrThreshold, pss2`psrThreshold
      ensures Valid()
      ensures psrThreshold == if t > 1.5 then t else 1.5
      ensures pss0.hist == old(pss0.hist) && pss1.hist == old(pss1.hist) && pss2.hist == old(pss2.hist)
    {
      var safe := EnsureSafeThreshold(t);
      psrThreshold := safe;
      pss0.SetPsrThreshold(safe);
      pss1.SetPsrThreshold(safe);
      pss2.SetPsrThreshold(safe);
    }
  }
}
