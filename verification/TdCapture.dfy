/** The capture state machine in the program's own form: hits are mutable objects shared between
    the state and the selectors, and "is the pending hit" is object identity.  Every method is
    proved to compute the decision of `TdSelection`. */
module TdCapture {
  import opened Modular
  import opened Options
  import opened TdSelection
  import opened TdCaptureRuns

  class HitRecord {
    const attempt: Attempt
    const reason: Option<string>
    const absStart: nat
    const firstSeen: real
    var relStart: Option<int>

    constructor (attempt: Attempt, reason: Option<string>, absStart: nat, relStart: Option<int>, firstSeen: real)
      ensures View() == Hit(attempt, reason, absStart, relStart, firstSeen)
    {
      this.attempt := attempt;
      this.reason := reason;
      this.absStart := absStart;
      this.firstSeen := firstSeen;
      this.relStart := relStart;
    }

    ghost function View(): Hit
      reads this
    {
      Hit(attempt, reason, absStart, relStart, firstSeen)
    }
  }

  ghost function ViewOf(hit: HitRecord?): Option<Hit>
    reads hit
  {
    if hit == null then None else Some(hit.View())
  }

  class TdCaptureState {
    var pendingHit: HitRecord?
    var pendingConfirm: HitRecord?
    var target: Option<Target>

    constructor ()
      ensures Valid() && View() == INITIAL
    {
      pendingHit := null;
      pendingConfirm := null;
      target := None;
    }

    ghost function View(): State
      reads this, pendingHit, pendingConfirm
    {
      State(ViewOf(pendingHit), ViewOf(pendingConfirm), target)
    }

    /** The invariant every call keeps; in particular never two things pending. */
    ghost predicate Valid()
      reads this, pendingHit, pendingConfirm
    {
      Structured(View())
    }

    method ResetPending()
      modifies this`pendingHit, this`pendingConfirm
      ensures pendingHit == null && pendingConfirm == null
    {
      pendingHit := null;
      pendingConfirm := null;
    }

    /** Refreshes the pending hit in place, or forgets it. */
    method Retry(cfg: Config, c: Cycle) returns (hit: HitRecord?)
      requires Valid() && c.bufLen > 0
      modifies this`pendingHit, pendingHit
      ensures View() == RetryPending(cfg, old(View()), c).state
      ensures ViewOf(hit) == RetryPending(cfg, old(View()), c).hit
      ensures hit == pendingHit && (hit != null ==> hit == old(pendingHit))
    {
      if pendingHit == null {
        return null;
      }
      var rel := Wrap(pendingHit.absStart - c.decodeStart, c.bufLen);
      if rel >= cfg.decodeSamples || c.now - pendingHit.firstSeen > cfg.pendingTimeout {
        pendingHit := null;
        return null;
      }
      pendingHit.relStart := Some(rel);
      return pendingHit;
    }

    /** Settles the truncation awaiting confirmation; returns the hit it was promoted to, if any. */
    method Confirm(cfg: Config, chipset: string, c: Cycle) returns (hit: HitRecord?)
      requires Valid() && c.bufLen > 0
      modifies this`pendingHit, this`pendingConfirm
      ensures View() == ResolveConfirm(cfg, old(View()), chipset, c).state
      ensures ViewOf(hit) == ResolveConfirm(cfg, old(View()), chipset, c).hit
      ensures hit != null ==> hit == pendingHit && fresh(hit)
      ensures hit == null ==> pendingHit == old(pendingHit)
    {
      hit := null;
      if pendingConfirm != null {
        var absC := pendingConfirm.absStart;
        var relC := Wrap(absC - c.decodeStart, c.bufLen);
        var resolvedOk := exists a | a in c.attempts :: DecodedNear(cfg, chipset, a, relC);
        if resolvedOk || relC >= cfg.decodeSamples {
          pendingConfirm := null;
        } else {
          var again := FirstMatch(c.attempts, a => FailedNear(cfg, chipset, a, relC));
          if again.Some? && !IsTruncation(again.value.reason) {
            hit := new HitRecord(again.value, again.value.reason, absC, Some(relC), c.now);
            pendingConfirm := null;
            pendingHit := hit;
          } else if c.now - pendingConfirm.firstSeen > cfg.confirmTimeout {
            pendingConfirm := null;
          }
        }
      }
    }

    method ChooseChipset(cfg: Config, chipset: string, c: Cycle) returns (hit: HitRecord?)
      requires Valid() && c.bufLen > 0 && cfg.sampleRate > 0 && 1 in cfg.slotOf
      requires target == Some(Chipset(chipset))
      modifies this`pendingHit, this`pendingConfirm, pendingHit
      ensures Valid() && View() == SelectChipset(cfg, old(View()), chipset, c).state
      ensures ViewOf(hit) == SelectChipset(cfg, old(View()), chipset, c).hit
      ensures hit == pendingHit
    {
      ChipsetSelected(cfg, View(), chipset, c);
      hit := Confirm(cfg, chipset, c);
      if hit != null {
        return;
      }
      hit := Retry(cfg, c);
      if hit != null || pendingConfirm != null {
        return;
      }
      var found := FirstMatch(c.attempts, a => FreshFailure(cfg, chipset, c.attempts, a));
      if found.None? {
        return null;
      }
      var a := found.value;
      var rel := StartSample(cfg, a);
      var candidate := new HitRecord(a, a.reason, Wrap(c.decodeStart + rel, c.bufLen), None, c.now);
      if IsTruncation(a.reason) {
        pendingConfirm := candidate;
        return null;
      }
      candidate.relStart := Some(rel);
      pendingHit := candidate;
      hit := candidate;
    }

    method ChooseDevice(cfg: Config, ntwId: int, c: Cycle) returns (hit: HitRecord?)
      requires Valid() && c.bufLen > 0 && cfg.sampleRate > 0 && 1 in cfg.slotOf
      requires target == Some(Device(ntwId))
      modifies this`pendingHit, pendingHit
      ensures Valid() && View() == SelectDevice(cfg, old(View()), ntwId, c).state
      ensures ViewOf(hit) == SelectDevice(cfg, old(View()), ntwId, c).hit
      ensures hit == pendingHit
    {
      DeviceSelected(cfg, View(), ntwId, c);
      hit := Retry(cfg, c);
      if hit != null {
        return;
      }
      var found := FirstMatch(c.attempts, (a: Attempt) => a.decoded && a.ntwId == Some(ntwId));
      if found.None? {
        return null;
      }
      var a := found.value;
      var rel := StartSample(cfg, a);
      hit := new HitRecord(a, if a.reason.None? then Some("ok") else a.reason,
                           Wrap(c.decodeStart + rel, c.bufLen), Some(rel), c.now);
      pendingHit := hit;
    }

    /** One call of select_td_capture.  What the selectors return is the pending hit itself, so
        the program's guard against any other object never fires. */
    method SelectTdCapture(cfg: Config, c: Cycle) returns (capture: Option<Capture>, status: Option<Status>)
      requires Valid() && c.bufLen > 0 && cfg.sampleRate > 0 && 1 in cfg.slotOf
      modifies this, pendingHit
      ensures Valid()
      ensures var r := Advance(cfg, old(View()), c);
              View() == r.state && capture == r.capture && status == r.status
    {
      var currentTarget := CurrentTarget(c);
      if !c.tdOn || currentTarget != target {
        ResetPending();
        target := currentTarget;
      }
      if !c.tdOn {
        return None, None;
      }

      ghost var entered := View();
      SelectSelected(cfg, entered, c);
      var hit: HitRecord? := null;
      match currentTarget {
        case Some(Chipset(name)) => hit := ChooseChipset(cfg, name, c);
        case Some(Device(id)) => hit := ChooseDevice(cfg, id, c);
        case None =>
      }

      if hit != null {
        var tdCenter := match hit.relStart
                        case Some(rel) => rel
                        case None => StartSample(cfg, hit.attempt);
        var tdStart := RenderStart(cfg, tdCenter);
        var tdEnd := tdStart + cfg.tdSamples;
        if tdEnd > c.chunkLen {
          if hit != pendingHit {
            assert false;
          }
          return None, None;
        }
        if hit == pendingHit {
          pendingHit := null;
        }
        var rendered := Hit(hit.attempt, hit.reason, hit.absStart, hit.relStart, hit.firstSeen);
        return Some(Capture(rendered, tdStart, tdEnd, tdCenter)), Some(CapturedStatus(rendered, tdCenter));
      }

      if pendingConfirm != null {
        status := Some(Confirming(pendingConfirm.attempt.timeS.GetOr(0.0)));
      } else {
        status := match currentTarget
                  case Some(Chipset(name)) => Some(WaitingForFailure(name, c.packetCount))
                  case Some(Device(_)) => Some(Searching(c.packetCount))
                  case None => None;
      }
      capture := None;
    }
  }
}
