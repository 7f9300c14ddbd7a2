/** Guide anchors of the onboarding assistant: UI elements that declare a
    target, register while mounted, and become active when the current guide
    step names their target. */
module Assistant {
  import opened Wrappers

  /** The anchor's `type` prop; `Unspecified` is the prop left out. */
  datatype AnchorType = Text | Button | Invisible | Unspecified

  datatype Step = Step(target: string)

  datatype Guide = Guide(steps: seq<Step>)

  /** A guide-store update: the current guide, if any, and the 1-based current step. */
  datatype GuideState = GuideState(currentGuide: Option<Guide>, currentStep: int)

  /** The rule reads `steps[currentStep - 1]` only when a guide is present and
      the step is positive; that step must exist, or the read of `.target`
      fails. */
  predicate StepReadable(data: GuideState) {
    data.currentGuide.Some? && data.currentStep > 0 ==> data.currentStep <= |data.currentGuide.value.steps|
  }

  /** The activation rule of `onGuideStateChange`. */
  predicate IsActive(data: GuideState, target: string, kind: AnchorType)
    requires StepReadable(data)
  {
    && data.currentGuide.Some?
    && data.currentStep > 0
    && data.currentGuide.value.steps[data.currentStep - 1].target == target
    && kind != Invisible
  }

  /** The edge rule of `componentDidUpdate`: scroll on a false-to-true change
      of a visible anchor. */
  predicate ScrollRequested(prevActive: bool, active: bool, kind: AnchorType) {
    !prevActive && active && kind != Invisible
  }

  /** An invisible anchor is never active, whatever the guide state. */
  lemma InvisibleNeverActive(data: GuideState, target: string)
    requires StepReadable(data)
    ensures !IsActive(data, target, Invisible)
  {
  }

  ghost predicate AllReadable(updates: seq<GuideState>) {
    forall i :: 0 <= i < |updates| ==> StepReadable(updates[i])
  }

  /** The scroll requests one anchor makes over a run of updates, starting in
      state `active`. */
  function Scrolls(active: bool, updates: seq<GuideState>, target: string, kind: AnchorType): (r: seq<bool>)
    requires AllReadable(updates)
    ensures |r| == |updates|
    decreases |updates|
  {
    if updates == [] then []
    else
      var next := IsActive(updates[0], target, kind);
      [ScrollRequested(active, next, kind)] + Scrolls(next, updates[1..], target, kind)
  }

  /** The state after a run of updates: the rule applied to the last one. */
  function FinalActive(active: bool, updates: seq<GuideState>, target: string, kind: AnchorType): (r: bool)
    requires AllReadable(updates)
    ensures updates != [] ==> r == IsActive(updates[|updates| - 1], target, kind)
    ensures updates == [] ==> r == active
    decreases |updates|
  {
    if updates == [] then active
    else FinalActive(IsActive(updates[0], target, kind), updates[1..], target, kind)
  }

  /** Over any run of updates, the anchor asks for a scroll exactly at the
      updates that make it active when the one before did not (or, for the
      first update, when it was inactive before the run). */
  lemma {:induction false} ScrollsAtRisingEdges(active: bool, updates: seq<GuideState>, target: string,
                                                kind: AnchorType, i: nat)
    requires AllReadable(updates) && i < |updates|
    ensures Scrolls(active, updates, target, kind)[i] <==>
              && IsActive(updates[i], target, kind)
              && !(if i == 0 then active else IsActive(updates[i - 1], target, kind))
    decreases i
  {
    if i > 0 {
      var rest := updates[1..];
      assert AllReadable(rest) by {
        forall j | 0 <= j < |rest| ensures StepReadable(rest[j]) { assert rest[j] == updates[j + 1]; }
      }
      ScrollsAtRisingEdges(IsActive(updates[0], target, kind), rest, target, kind, i - 1);
      assert rest[i - 1] == updates[i];
      if i > 1 { assert rest[i - 2] == updates[i - 1]; }
    }
  }

  /** The same update delivered twice in a row never asks for a second scroll,
      and an invisible anchor never asks for one. */
  lemma NoScrollOnRepeatOrInvisible(active: bool, updates: seq<GuideState>, target: string,
                                    kind: AnchorType, i: nat)
    requires AllReadable(updates) && i < |updates|
    requires (0 < i && updates[i] == updates[i - 1]) || kind == Invisible
    ensures !Scrolls(active, updates, target, kind)[i]
  {
    ScrollsAtRisingEdges(active, updates, target, kind, i);
  }

  class GuideAnchor {
    const target: string
    const kind: AnchorType
    var active: bool
    var mounted: bool

    /** `getInitialState`: an anchor starts inactive (and not yet mounted). */
    constructor (target: string, kind: AnchorType)
      ensures this.target == target && this.kind == kind
      ensures !active && !mounted
    {
      this.target := target;
      this.kind := kind;
      active := false;
      mounted := false;
    }

    /** `onGuideStateChange`: recompute the flag from the update alone. */
    method OnGuideStateChange(data: GuideState)
      requires StepReadable(data)
      modifies this`active
      ensures active == IsActive(data, target, kind)
    {
      if data.currentGuide.Some? && data.currentStep > 0
         && data.currentGuide.value.steps[data.currentStep - 1].target == target
         && kind != Invisible
      {
        active := true;
      } else {
        active := false;
      }
    }

    /** `componentDidUpdate`: whether the element scrolls itself into view. */
    method ComponentDidUpdate(prevActive: bool) returns (scroll: bool)
      ensures scroll == ScrollRequested(prevActive, active, kind)
    {
      scroll := !prevActive && active && kind != Invisible;
    }

    /** One update as React delivers it: the state change, then
        `componentDidUpdate` with the state from before. */
    method Receive(data: GuideState) returns (scroll: bool)
      requires StepReadable(data)
      modifies this`active
      ensures active == IsActive(data, target, kind)
      ensures scroll == ScrollRequested(old(active), active, kind)
    {
      var prevActive := active;
      OnGuideStateChange(data);
      scroll := ComponentDidUpdate(prevActive);
    }

    /** `componentDidMount`: register with the guide store. */
    method ComponentDidMount(registry: AnchorRegistry)
      requires registry.Valid() && !mounted
      modifies this`mounted, registry
      ensures mounted && registry.Valid()
      ensures registry.anchors == old(registry.anchors) + {this}
    {
      registry.Register(this);
    }

    /** `componentWillUnmount`: unregister from the guide store. */
    method ComponentWillUnmount(registry: AnchorRegistry)
      requires registry.Valid() && this in registry.anchors
      modifies this`mounted, registry
      ensures !mounted && registry.Valid()
      ensures registry.anchors == old(registry.anchors) - {this}
    {
      registry.Unregister(this);
    }
  }

  /** The live anchors the guide store knows of. Of the anchors it has ever
      seen (`known`), exactly the mounted ones are registered. */
  class AnchorRegistry {
    var anchors: set<GuideAnchor>
    ghost var known: set<GuideAnchor>

    ghost predicate Valid()
      reads this, known
    {
      && anchors <= known
      && forall a :: a in known ==> (a in anchors <==> a.mounted)
    }

    constructor ()
      ensures Valid() && anchors == {}
    {
      anchors := {};
      known := {};
    }

    /** `registerAnchor`, called as the anchor mounts. */
    method Register(a: GuideAnchor)
      requires Valid() && !a.mounted
      modifies this, a`mounted
      ensures Valid() && a.mounted
      ensures anchors == old(anchors) + {a} && known == old(known) + {a}
    {
      a.mounted := true;
      anchors := anchors + {a};
      known := known + {a};
    }

    /** `unregisterAnchor`, called as the anchor unmounts. */
    method Unregister(a: GuideAnchor)
      requires Valid() && a in anchors
      modifies this, a`mounted
      ensures Valid() && !a.mounted
      ensures anchors == old(anchors) - {a} && known == old(known)
    {
      a.mounted := false;
      anchors := anchors - {a};
    }

    /** One guide-store update delivered to every registered anchor; answers
        the anchors that scroll themselves into view. */
    method Broadcast(data: GuideState) returns (scrolled: set<GuideAnchor>)
      requires Valid() && StepReadable(data)
      modifies anchors`active
      ensures Valid() && anchors == old(anchors)
      ensures forall a :: a in anchors ==> a.active == IsActive(data, a.target, a.kind)
      ensures forall a, b :: a in anchors && b in anchors && a.target == b.target && a.kind == b.kind ==>
                a.active == b.active
      ensures scrolled == set a | a in anchors && ScrollRequested(old(a.active), a.active, a.kind)
    {
      var pending := anchors;
      scrolled := {};
      while pending != {}
        invariant pending <= anchors
        invariant forall a :: a in anchors && a !in pending ==> a.active == IsActive(data, a.target, a.kind)
        invariant forall a :: a in pending ==> a.active == old(a.active)
        invariant scrolled == set a | a in anchors && a !in pending && ScrollRequested(old(a.active), a.active, a.kind)
        decreases pending
      {
        var a :| a in pending;
        var scroll := a.Receive(data);
        if scroll {
          scrolled := scrolled + {a};
        }
        pending := pending - {a};
      }
    }
  }
}
