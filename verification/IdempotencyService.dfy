/** The idempotency store object. */
module IdempotencyService {
  import opened Options
  import opened IdempotencyEntries
  import opened IdempotencyRuns

  class IdempotencyStore {
    /** Whether the store has a path to save to. */
    const persistent: bool
    var entries: map<string, Entry>
    var inFlight: map<string, string>
    /** The saved file; `None` if there is none. */
    var saved: Option<map<string, Entry>>
    /** The handlers let through by `Begin` that have neither finished nor died. */
    ghost var running: multiset<Handler>
    ghost var clock: int

    /** The state of the protocol. */
    ghost function Abstract(): State
      reads this
    {
      State(entries, inFlight, saved, running, clock)
    }

    ghost predicate Valid()
      reads this
    {
      Inv(Abstract())
    }

    /** `NewIdempotencyStore`: a start with the file that an earlier process left. */
    constructor (persistent: bool, file: Option<map<string, Entry>>, now: int)
      requires !persistent ==> file.None?
      ensures this.persistent == persistent && Valid() && Initial(Abstract())
      ensures inFlight == map[] && running == multiset{} && saved == file && clock == now
      ensures Reloaded(file, entries, now)
    {
      this.persistent := persistent;
      inFlight, running, clock, saved := map[], multiset{}, now, file;
      entries := map[];
      new;
      if file.Some? {
        entries := Prune(file.value, now);
      }
    }

    /** `begin` */
    method Begin(key: string, fingerprint: string, now: int) returns (d: Decision)
      requires Valid() && clock <= now
      modifies this
      ensures Valid() && Step(persistent, old(Abstract()), Began(key, fingerprint, d), Abstract()) && clock == now
    {
      ghost var before := Abstract();
      clock := now;
      d := New;
      if key in entries && Live(entries[key], now) {
        d := if entries[key].fingerprint != fingerprint then Mismatch else Replay(entries[key]);
      } else if key in inFlight {
        d := if inFlight[key] != fingerprint then Mismatch else InFlight;
      } else {
        inFlight := inFlight[key := fingerprint];
        running := running + multiset{Handler(key, fingerprint)};
      }
      StepInv(persistent, before, Began(key, fingerprint, d), Abstract());
    }

    /** `finish`, by a handler that was let through. */
    method Finish(key: string, fingerprint: string, response: Response, written: bool, now: int) returns (ok: bool)
      requires Valid() && clock <= now && Handler(key, fingerprint) in running
      modifies this
      ensures Valid() && clock == now
      ensures Step(persistent, old(Abstract()), Finished(Handler(key, fingerprint), response, written), Abstract())
      ensures response.status < 500 && key in entries ==>
                entries[key] == Entry(fingerprint, response.status, response.body, response.etag, now)
      ensures ok <==> response.status >= 500 || !persistent || written
    {
      ghost var before := Abstract();
      clock := now;
      running := running - multiset{Handler(key, fingerprint)};
      inFlight := inFlight - {key};
      ok := true;
      if response.status < 500 {
        ok := Record(key, fingerprint, response, written, now);
      }
      StepInv(persistent, before, Finished(Handler(key, fingerprint), response, written), Abstract());
      if response.status < 500 {
        FinishRecords(persistent, before, Finished(Handler(key, fingerprint), response, written), Abstract());
      }
    }

    /** The part of `finish` that records a response. */
    method Record(key: string, fingerprint: string, response: Response, written: bool, now: int) returns (ok: bool)
      requires response.status < 500
      modifies this`entries, this`saved
      ensures Completed(persistent, old(entries), entries, old(saved), saved, key, fingerprint, response, written, now)
      ensures ok <==> !persistent || written
    {
      entries := entries[key := Recorded(fingerprint, response, now)];
      entries := Prune(entries, now);
      ok := Save(written);
    }

    /** `saveLocked` */
    method Save(written: bool) returns (ok: bool)
      modifies this`saved
      ensures ok <==> !persistent || written
      ensures saved == if persistent && written then Some(entries) else old(saved)
    {
      if !persistent {
        return true;
      }
      if written {
        saved := Some(entries);
      }
      return written;
    }
  }
}
