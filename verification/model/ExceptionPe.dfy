/** The exception priorities of a PE as EL3 keeps them, changed in place. */
module ExceptionPe {
  import opened Bits
  import opened ExceptionPriorities

  class PeData {
    const platform: Platform
    var active: nat
    var initMask: Priority
    var nsMask: Priority
    /** The priority mask register of the interrupt controller. */
    var maskRegister: Priority
    /** The priorities that have been activated and not yet deactivated. */
    ghost var stack: Stack

    ghost function Now(): Pe
      reads this
    {
      Pe(active, initMask, nsMask, maskRegister)
    }

    ghost predicate Valid()
      reads this
    {
      platform.WellFormed() && Inv(platform, Now(), stack)
    }

    /** The call had the outcome `out`; nothing is said of a system that has stopped. */
    ghost predicate Did(out: Outcome, stopped: bool)
      reads this
    {
      match out
      case Halts => stopped
      case Returns(after) => !stopped && Now() == after
    }

    constructor (platform: Platform, mask: Priority)
      requires platform.WellFormed() && mask <= 0xff
      ensures Valid() && this.platform == platform && stack == Empty && Now() == Pe(0, 0, 0, mask)
    {
      this.platform := platform;
      active, initMask, nsMask, maskRegister, stack := 0, 0, 0, mask, Empty;
    }

    /** `plat_ic_set_priority_mask`. */
    method SetMask(m: Priority) returns (was: Priority)
      modifies `maskRegister
      ensures was == old(maskRegister) && maskRegister == m
    {
      was := maskRegister;
      maskRegister := m;
    }

    /** `ehf_activate_priority`. */
    method ActivatePriority(p: Priority, run: Priority) returns (stopped: bool)
      requires Valid()
      modifies this
      ensures Did(Activate(platform, old(Now()), p, run), stopped)
      ensures stopped <==> || p >= run || platform.PriToIdx(p) >= platform.levels
                           || !platform.registered(platform.PriToIdx(p)) || p >= old(maskRegister)
                           || (old(stack).Push? && platform.PriToIdx(p) >= old(stack).top)
      ensures !stopped ==> Valid() && stack == Push(old(stack), platform.PriToIdx(p), p)
      ensures !stopped ==> (old(stack).Push? ==> stack.top < old(stack).top) && maskRegister == p
      ensures !stopped ==> Original(Now()) == old(Original(Now()))
      ensures !stopped && p < 0x80 && old(Guarded(platform, Now(), stack)) ==> Guarded(platform, Now(), stack)
    {
      ActivateHalts(platform, Now(), stack, p, run);
      if p >= run { return true; }
      var i := platform.PriToIdx(p);
      if i >= platform.levels || !platform.registered(i) { return true; }
      stopped := SetTop(p, i);
      if stopped { return; }
      ActivateKeeps(platform, old(Now()), stack, p, run);
      stack := Push(stack, i, p);
    }

    /** The part of an activation that changes bits and masks. */
    method SetTop(p: Priority, i: Index) returns (stopped: bool)
      requires i < 32
      modifies `active, `initMask, `maskRegister
      ensures Did(ActivateAt(old(Now()), p, i), stopped)
    {
      if active != 0 {
        var current := Ctz(active);
        if i >= current { return true; }
      }
      var first := active == 0;
      active := Or(active, Power(i));
      var was := SetMask(p);
      if p >= was { return true; }
      if first { initMask := was % 0x100; }
      stopped := false;
    }

    /** `ehf_deactivate_priority`. */
    method DeactivatePriority(p: Priority, run: Priority) returns (stopped: bool)
      requires Valid()
      modifies this
      ensures Did(Deactivate(platform, old(Now()), p, run), stopped)
      ensures stopped <==> || p >= run || platform.PriToIdx(p) >= platform.levels
                           || !platform.registered(platform.PriToIdx(p)) || old(stack).Empty?
                           || old(stack).top != platform.PriToIdx(p) || old(maskRegister) > p
      ensures old(Guarded(platform, Now(), stack)) && old(stack).Push? && p == old(stack).priority ==>
                (stopped <==> || p >= run || platform.PriToIdx(p) >= platform.levels
                              || !platform.registered(platform.PriToIdx(p)))
      ensures !stopped && p < 0x80 && old(Guarded(platform, Now(), stack)) ==> Guarded(platform, Now(), stack)
      ensures !stopped ==> Valid() && stack == old(stack).rest && Original(Now()) == old(Original(Now()))
      ensures !stopped ==> maskRegister == if stack.Empty? then old(initMask) else p
    {
      DeactivateHalts(platform, Now(), stack, p, run);
      if p >= run { return true; }
      var i := platform.PriToIdx(p);
      if i >= platform.levels || !platform.registered(i) { return true; }
      stopped := ClearTop(p, i);
      if stopped { return; }
      DeactivateKeeps(platform, old(Now()), stack, p, run);
      stack := stack.rest;
    }

    /** The part of a deactivation that changes bits and mask. */
    method ClearTop(p: Priority, i: Index) returns (stopped: bool)
      modifies `active, `maskRegister
      ensures Did(DeactivateAt(old(Now()), p, i), stopped)
    {
      if active == 0 { return true; }
      var current := Ctz(active);
      if i != current { return true; }
      active := And(active, active - 1);
      var was := SetMask(if active == 0 then initMask else p);
      stopped := was > p;
    }

    /** `ehf_exited_normal_world`. */
    method ExitedNormal(run: Priority) returns (stopped: bool)
      requires Valid()
      modifies this
      ensures Did(ExitedNormalWorld(old(Now()), run), stopped)
      ensures stopped <==> run % 0x100 >= 0x80 && old(stack).Empty? && (old(nsMask) != 0 || old(maskRegister) < 0x80)
      ensures !stopped && run % 0x100 >= 0x80 && old(stack).Empty? ==>
                maskRegister == HIGHEST_NS_PRIORITY && nsMask == old(maskRegister)
      ensures !stopped && !(run % 0x100 >= 0x80 && old(stack).Empty?) ==> Now() == old(Now())
      ensures !stopped ==> Valid() && stack == old(stack) && Original(Now()) == old(Original(Now()))
    {
      ExitHides(platform, Now(), stack, run);
      if IsSecure(run) || active != 0 { return false; }
      if nsMask != 0 { return true; }
      var was := SetMask(HIGHEST_NS_PRIORITY);
      nsMask := was % 0x100;
      if IsSecure(nsMask) { return true; }
      ExitKeeps(platform, old(Now()), stack, run);
      stopped := false;
    }

    /** `ehf_entering_normal_world`: with nothing active, the normal world finds its own mask. */
    method EnteringNormal(run: Priority) returns (stopped: bool)
      requires Valid()
      modifies this
      ensures !stopped && Did(EnteringNormalWorld(old(Now()), run), stopped)
      ensures Valid() && stack == old(stack) && Original(Now()) == old(Original(Now()))
      ensures if stack.Empty? && run % 0x100 >= 0x80
              then Now() == old(Now()).(nsMask := 0, mask := old(Original(Now()))) else Now() == old(Now())
    {
      EnterKeeps(platform, Now(), stack, run);
      if IsSecure(run) || active != 0 || nsMask == 0 { return false; }
      var was := SetMask(nsMask);
      if was != HIGHEST_NS_PRIORITY && was != nsMask { return true; }
      nsMask := 0;
      stopped := false;
    }

    /** `ehf_allow_ns_preemption`. */
    method AllowPreemption() returns (stopped: bool)
      requires Valid()
      modifies this
      ensures Did(AllowNsPreemption(old(Now())), stopped)
      ensures stopped <==> old(nsMask) == 0 || old(stack).Push?
      ensures !stopped ==> Valid() && stack == old(stack) && maskRegister == Original(Now()) == old(Original(Now()))
    {
      AllowKeeps(platform, Now(), stack);
      if nsMask == 0 || active != 0 { return true; }
      var _ := SetMask(nsMask);
      nsMask := 0;
      stopped := false;
    }
  }
}
