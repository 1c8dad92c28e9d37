/**
 What the window holds per pane from events that race each other over a socket: each
 carries a sequence number, and one not newer than what is held is dropped. Briefs are
 only ever updated; agent runs are also cleared, which forgets the number as well.
 */
module LatestEvents {
  import opened Options

  type Pane = string

  datatype Stamped<B> = Stamped(seqNo: int, body: B)

  /** `seqNo` is absent in events from older hooks. */
  datatype Event<B> =
    | Update(pane: Pane, seqNo: Option<int>, body: B)
    | Clear(pane: Pane, seqNo: Option<int>)

  /** The event is not newer than what is held. */
  ghost predicate Stale<B>(slot: Option<Stamped<B>>, e: Event<B>) {
    slot.Some? && e.seqNo.Some? && e.seqNo.value <= slot.value.seqNo
  }

  /** What one event makes of what its pane holds. */
  ghost function Slotted<B>(slot: Option<Stamped<B>>, e: Event<B>): Option<Stamped<B>> {
    if Stale(slot, e) then slot
    else if e.Clear? then None
    else Some(Stamped(e.seqNo.Or(0), e.body))
  }

  ghost function Held<B>(s: map<Pane, Stamped<B>>, p: Pane): Option<Stamped<B>> {
    if p in s then Some(s[p]) else None
  }

  ghost function Deliver<B>(s: map<Pane, Stamped<B>>, e: Event<B>): map<Pane, Stamped<B>> {
    var slot := Slotted(Held(s, e.pane), e);
    if slot.Some? then s[e.pane := slot.value] else s - {e.pane}
  }

  ghost function DeliverAll<B>(s: map<Pane, Stamped<B>>, es: seq<Event<B>>): map<Pane, Stamped<B>>
    decreases |es|
  {
    if es == [] then s else DeliverAll(Deliver(s, es[0]), es[1..])
  }

  // ---------- One pane at a time ----------

  ghost function SlotAfter<B>(slot: Option<Stamped<B>>, p: Pane, es: seq<Event<B>>): Option<Stamped<B>>
    decreases |es|
  {
    if es == [] then slot
    else SlotAfter(if es[0].pane == p then Slotted(slot, es[0]) else slot, p, es[1..])
  }

  lemma {:induction false} HeldAfter<B>(s: map<Pane, Stamped<B>>, es: seq<Event<B>>, p: Pane)
    ensures Held(DeliverAll(s, es), p) == SlotAfter(Held(s, p), p, es)
    decreases |es|
  {
    if es != [] {
      HeldAfter(Deliver(s, es[0]), es[1..], p);
    }
  }

  lemma {:induction false} SlotAfterAppend<B>(slot: Option<Stamped<B>>, p: Pane, es: seq<Event<B>>, e: Event<B>)
    requires e.pane == p
    ensures SlotAfter(slot, p, es + [e]) == Slotted(SlotAfter(slot, p, es), e)
    decreases |es|
  {
    if es == [] {
      assert es + [e] == [e];
    } else {
      assert (es + [e])[0] == es[0] && (es + [e])[1..] == es[1..] + [e];
      SlotAfterAppend(if es[0].pane == p then Slotted(slot, es[0]) else slot, p, es[1..], e);
    }
  }

  /** All events of the pane carry a number. */
  ghost predicate Sequenced<B>(es: seq<Event<B>>, p: Pane) {
    forall e :: e in es && e.pane == p ==> e.seqNo.Some?
  }

  /** No event of the pane is numbered above `top`. */
  ghost predicate AtMost<B>(es: seq<Event<B>>, p: Pane, top: int) {
    forall e :: e in es && e.pane == p ==> e.seqNo.Some? && e.seqNo.value <= top
  }

  lemma {:induction false} NewestStays<B>(slot: Option<Stamped<B>>, p: Pane, es: seq<Event<B>>)
    requires slot.Some? && AtMost(es, p, slot.value.seqNo)
    ensures SlotAfter(slot, p, es) == slot
    decreases |es|
  {
    if es != [] {
      assert es[0] in es;
      assert AtMost(es[1..], p, slot.value.seqNo);
      NewestStays(slot, p, es[1..]);
    }
  }

  /** The update at position `i` is the first with the highest number of its pane. */
  ghost predicate FirstNewest<B>(es: seq<Event<B>>, p: Pane, i: nat) {
    && i < |es| && es[i].Update? && es[i].pane == p && es[i].seqNo.Some?
    && AtMost(es, p, es[i].seqNo.value)
    && forall k :: 0 <= k < i && es[k].Update? && es[k].pane == p ==> es[k].seqNo != es[i].seqNo
  }

  ghost predicate Below<B>(slot: Option<Stamped<B>>, n: int) {
    slot.Some? ==> slot.value.seqNo < n
  }

  /** However the events of a pane are mixed with clears, the first update with the highest number ends up held. */
  lemma {:induction false} FirstNewestWins<B>(slot: Option<Stamped<B>>, p: Pane, es: seq<Event<B>>, i: nat)
    requires FirstNewest(es, p, i) && Below(slot, es[i].seqNo.value)
    ensures SlotAfter(slot, p, es) == Some(Stamped(es[i].seqNo.value, es[i].body))
    decreases |es|
  {
    assert es[0] in es;
    var next := if es[0].pane == p then Slotted(slot, es[0]) else slot;
    assert AtMost(es[1..], p, es[i].seqNo.value);
    if i == 0 {
      NewestStays(next, p, es[1..]);
    } else {
      FirstNewestWins(next, p, es[1..], i - 1);
    }
  }

  /** What a pane holds is what it held, or one of the updates, or nothing. */
  lemma {:induction false} HeldFromUpdates<B>(slot: Option<Stamped<B>>, p: Pane, es: seq<Event<B>>)
    requires Sequenced(es, p)
    ensures var r := SlotAfter(slot, p, es);
            r.None? || r == slot || exists e :: e in es && UpdateOf(e, p) && r == Some(Stamped(e.seqNo.value, e.body))
    decreases |es|
  {
    if es != [] {
      assert es[0] in es;
      assert Sequenced(es[1..], p);
      HeldFromUpdates(if es[0].pane == p then Slotted(slot, es[0]) else slot, p, es[1..]);
    }
  }

  ghost predicate UpdateOf<B>(e: Event<B>, p: Pane) {
    e.Update? && e.pane == p && e.seqNo.Some?
  }

  ghost predicate HasUpdate<B>(es: seq<Event<B>>, p: Pane) {
    exists e :: e in es && UpdateOf(e, p)
  }

  ghost predicate HasFreshClear<B>(slot: Option<Stamped<B>>, es: seq<Event<B>>, p: Pane) {
    exists e :: e in es && e.Clear? && e.pane == p && !Stale(slot, e)
  }

  lemma {:induction false} OnlyClears<B>(slot: Option<Stamped<B>>, p: Pane, es: seq<Event<B>>)
    requires Sequenced(es, p) && !HasUpdate(es, p)
    ensures SlotAfter(slot, p, es) == if HasFreshClear(slot, es, p) then None else slot
    decreases |es|
  {
    if es != [] {
      assert es[0] in es;
      assert Sequenced(es[1..], p) && !HasUpdate(es[1..], p);
      var next := if es[0].pane == p then Slotted(slot, es[0]) else slot;
      OnlyClears(next, p, es[1..]);
    }
  }

  // ---------- Independence of order and repetition ----------

  ghost predicate SameEvents<B>(es: seq<Event<B>>, es': seq<Event<B>>) {
    (forall e :: e in es ==> e in es') && (forall e :: e in es' ==> e in es)
  }

  /** No two fresh updates share the pane's highest number with different contents. */
  ghost predicate NewestUnique<B>(slot: Option<Stamped<B>>, es: seq<Event<B>>, p: Pane) {
    forall e, f ::
      && e in es && UpdateOf(e, p) && f in es && UpdateOf(f, p)
      && e.seqNo == f.seqNo && !Stale(slot, e)
      && (forall u :: u in es && UpdateOf(u, p) ==> u.seqNo.value <= e.seqNo.value)
      ==> e.body == f.body
  }

  /** An update numbered at least as high as the clear. */
  ghost predicate Outranked<B>(es: seq<Event<B>>, c: Event<B>) {
    exists u :: u in es && UpdateOf(u, c.pane) && (c.seqNo.Some? ==> c.seqNo.value <= u.seqNo.value)
  }

  /** Every fresh clear is outranked, unless there is nothing but clears. */
  ghost predicate ClearsOutranked<B>(slot: Option<Stamped<B>>, es: seq<Event<B>>, p: Pane) {
    HasUpdate(es, p) ==> forall c :: c in es && c.Clear? && c.pane == p && !Stale(slot, c) ==> Outranked(es, c)
  }

  ghost predicate HasUnnumbered<B>(es: seq<Event<B>>, p: Pane) {
    exists u :: u in es && Unnumbered(u, p)
  }

  ghost predicate Unnumbered<B>(e: Event<B>, p: Pane) {
    e.pane == p && e.seqNo.None?
  }

  /** What an event without a number leaves behind, whatever was held; an update is stamped zero. */
  ghost function Leaves<B>(u: Event<B>): Option<Stamped<B>> {
    if u.Clear? then None else Some(Stamped(0, u.body))
  }

  /** Delivered after `u`, no event of the pane changes what `u` left. */
  ghost predicate LastWord<B>(es: seq<Event<B>>, p: Pane, u: Event<B>) {
    forall e :: e in es && e.pane == p ==>
      if u.Clear? then e.Clear?
      else if e.seqNo.None? then e.Update? && e.body == u.body
      else e.seqNo.value <= 0
  }

  /**
   The condition on one pane. Any order can end with an event without a number, so each
   of those must have the last word. Otherwise the newest update must be one, and no
   clear newer than every update may come with updates it could fall between.
   */
  ghost predicate OrderFree<B>(slot: Option<Stamped<B>>, es: seq<Event<B>>, p: Pane) {
    if HasUnnumbered(es, p) then forall u :: u in es && Unnumbered(u, p) ==> LastWord(es, p, u)
    else NewestUnique(slot, es, p) && ClearsOutranked(slot, es, p)
  }

  lemma {:induction false} LastWordStays<B>(p: Pane, es: seq<Event<B>>, u: Event<B>)
    requires LastWord(es, p, u)
    ensures SlotAfter(Leaves(u), p, es) == Leaves(u)
    decreases |es|
  {
    if es != [] {
      assert es[0] in es;
      assert LastWord(es[1..], p, u);
      LastWordStays(p, es[1..], u);
    }
  }

  lemma {:induction false} LastWordWins<B>(slot: Option<Stamped<B>>, p: Pane, es: seq<Event<B>>, u: Event<B>)
    requires u in es && Unnumbered(u, p) && LastWord(es, p, u)
    ensures SlotAfter(slot, p, es) == Leaves(u)
    decreases |es|
  {
    assert LastWord(es[1..], p, u);
    if es[0] == u {
      LastWordStays(p, es[1..], u);
    } else {
      LastWordWins(if es[0].pane == p then Slotted(slot, es[0]) else slot, p, es[1..], u);
    }
  }

  /** Otherwise another event, delivered last of all, changes it. */
  lemma LastWordNeeded<B>(s: map<Pane, Stamped<B>>, es: seq<Event<B>>, p: Pane, u: Event<B>)
    requires u in es && Unnumbered(u, p) && forall es' :: SameOutcome(s, es, es')
    ensures LastWord(es, p, u)
  {
    HeldAfter(s, es + [u], p);
    SlotAfterAppend(Held(s, p), p, es, u);
    assert SameOutcome(s, es, es + [u]);
    forall e | e in es && e.pane == p
      ensures if u.Clear? then e.Clear?
              else if e.seqNo.None? then e.Update? && e.body == u.body
              else e.seqNo.value <= 0
    {
      HeldAfter(s, es + [u] + [e], p);
      SlotAfterAppend(Held(s, p), p, es + [u], e);
      assert SameOutcome(s, es, es + [u] + [e]);
      assert Slotted(Leaves(u), e) == Leaves(u);
    }
  }

  ghost predicate FirstNewestUpdate<B>(es: seq<Event<B>>, p: Pane, i: nat) {
    && i < |es| && UpdateOf(es[i], p)
    && (forall u :: u in es && UpdateOf(u, p) ==> u.seqNo.value <= es[i].seqNo.value)
    && (forall k :: 0 <= k < i && UpdateOf(es[k], p) ==> es[k].seqNo.value < es[i].seqNo.value)
  }

  lemma {:induction false} NewestUpdateExists<B>(es: seq<Event<B>>, p: Pane)
    requires HasUpdate(es, p)
    ensures exists i :: FirstNewestUpdate(es, p, i)
    decreases |es|
  {
    if HasUpdate(es[1..], p) {
      NewestUpdateExists(es[1..], p);
      var j: nat :| FirstNewestUpdate(es[1..], p, j);
      if UpdateOf(es[0], p) && es[1..][j].seqNo.value <= es[0].seqNo.value {
        assert FirstNewestUpdate(es, p, 0);
      } else {
        assert forall k :: 1 <= k < |es| ==> es[k] == es[1..][k - 1];
        assert FirstNewestUpdate(es, p, j + 1);
      }
    } else {
      assert forall e :: e in es ==> e == es[0] || e in es[1..];
      assert FirstNewestUpdate(es, p, 0);
    }
  }

  lemma NumberedSlot<B>(slot: Option<Stamped<B>>, es: seq<Event<B>>, es': seq<Event<B>>, p: Pane)
    requires Sequenced(es, p) && SameEvents(es, es') && NewestUnique(slot, es, p) && ClearsOutranked(slot, es, p)
    ensures SlotAfter(slot, p, es') == SlotAfter(slot, p, es)
  {
    assert Sequenced(es', p);
    if !HasUpdate(es, p) {
      OnlyClears(slot, p, es);
      OnlyClears(slot, p, es');
    } else {
      assert HasUpdate(es', p);
      NewestUpdateExists(es, p);
      NewestUpdateExists(es', p);
      var i: nat :| FirstNewestUpdate(es, p, i);
      var j: nat :| FirstNewestUpdate(es', p, j);
      assert es[i] in es && es'[j] in es';
      assert es[i].seqNo == es'[j].seqNo;
      TopBoundsAll(slot, es, p, es[i]);
      if Stale(slot, es[i]) {
        NewestStays(slot, p, es);
        NewestStays(slot, p, es');
      } else {
        FirstNewestWins(slot, p, es, i);
        FirstNewestWins(slot, p, es', j);
      }
    }
  }

  /** The slot after any arrangement of the same events, when the condition holds. */
  lemma OrderFreeSlot<B>(slot: Option<Stamped<B>>, es: seq<Event<B>>, es': seq<Event<B>>, p: Pane)
    requires SameEvents(es, es') && OrderFree(slot, es, p)
    ensures SlotAfter(slot, p, es') == SlotAfter(slot, p, es)
  {
    if HasUnnumbered(es, p) {
      var u :| u in es && Unnumbered(u, p);
      LastWordWins(slot, p, es, u);
      LastWordWins(slot, p, es', u);
    } else {
      NumberedIfNotUnnumbered(es, p);
      NumberedSlot(slot, es, es', p);
    }
  }

  lemma NumberedIfNotUnnumbered<B>(es: seq<Event<B>>, p: Pane)
    requires !HasUnnumbered(es, p)
    ensures Sequenced(es, p)
  {
    forall e | e in es && e.pane == p ensures e.seqNo.Some? {
      assert e.seqNo.None? ==> Unnumbered(e, p);
    }
  }

  /** When every fresh clear is outranked, the newest update or what is held bounds every event of the pane. */
  lemma TopBoundsAll<B>(slot: Option<Stamped<B>>, es: seq<Event<B>>, p: Pane, top: Event<B>)
    requires Sequenced(es, p) && ClearsOutranked(slot, es, p)
    requires top in es && UpdateOf(top, p) && forall u :: u in es && UpdateOf(u, p) ==> u.seqNo.value <= top.seqNo.value
    ensures AtMost(es, p, if Stale(slot, top) then slot.value.seqNo else top.seqNo.value)
  {
    assert HasUpdate(es, p);
    forall e | e in es && e.pane == p
      ensures e.seqNo.value <= if Stale(slot, top) then slot.value.seqNo else top.seqNo.value
    {
      if e.Clear? && !Stale(slot, e) {
        assert Outranked(es, e);
      } else if e.Update? {
        assert UpdateOf(e, p);
      }
    }
  }

  /** A fresh clear that outranks every update: repeat it last and the pane is empty, then an update and it is not. */
  lemma ClearThenUpdate<B>(slot: Option<Stamped<B>>, es: seq<Event<B>>, p: Pane, c: Event<B>, u: Event<B>)
    requires Sequenced(es, p) && c in es && c.Clear? && c.pane == p && !Stale(slot, c) && !Outranked(es, c)
    requires u in es && UpdateOf(u, p)
    ensures SameEvents(es, es + [c]) && SlotAfter(slot, p, es + [c]).None?
    ensures SameEvents(es, es + [c] + [u]) && SlotAfter(slot, p, es + [c] + [u]).Some?
  {
    HeldFromUpdates(slot, p, es);
    SlotAfterAppend(slot, p, es, c);
    SlotAfterAppend(slot, p, es + [c], u);
  }

  /** Two newest updates with different contents: whichever is repeated first wins. */
  lemma EitherNewestWins<B>(slot: Option<Stamped<B>>, es: seq<Event<B>>, p: Pane, e: Event<B>)
    requires Sequenced(es, p) && ClearsOutranked(slot, es, p) && e in es && UpdateOf(e, p) && !Stale(slot, e)
    requires forall u :: u in es && UpdateOf(u, p) ==> u.seqNo.value <= e.seqNo.value
    ensures SameEvents(es, [e] + es) && SlotAfter(slot, p, [e] + es) == Some(Stamped(e.seqNo.value, e.body))
  {
    TopBoundsAll(slot, es, p, e);
    FirstNewestWins(slot, p, [e] + es, 0);
  }

  ghost predicate SameOutcome<B>(s: map<Pane, Stamped<B>>, es: seq<Event<B>>, es': seq<Event<B>>) {
    SameEvents(es, es') ==> DeliverAll(s, es') == DeliverAll(s, es)
  }

  lemma OrderFreeSuffices<B>(s: map<Pane, Stamped<B>>, es: seq<Event<B>>, es': seq<Event<B>>)
    requires SameEvents(es, es') && forall p :: OrderFree(Held(s, p), es, p)
    ensures DeliverAll(s, es') == DeliverAll(s, es)
  {
    var a, b := DeliverAll(s, es), DeliverAll(s, es');
    forall p: Pane
      ensures Held(a, p) == Held(b, p)
    {
      HeldAfter(s, es, p);
      HeldAfter(s, es', p);
      OrderFreeSlot(Held(s, p), es, es', p);
    }
    SameSlotsSameMap(a, b);
  }

  lemma SameSlotsSameMap<B>(a: map<Pane, Stamped<B>>, b: map<Pane, Stamped<B>>)
    requires forall p :: Held(a, p) == Held(b, p)
    ensures a == b
  {
    forall p: Pane
      ensures p in a <==> p in b
      ensures p in a ==> a[p] == b[p]
    {
      assert Held(a, p) == Held(b, p);
    }
  }

  lemma OrderFreeNecessary<B>(s: map<Pane, Stamped<B>>, es: seq<Event<B>>, p: Pane)
    requires forall es' :: SameOutcome(s, es, es')
    ensures OrderFree(Held(s, p), es, p)
  {
    if HasUnnumbered(es, p) {
      forall u | u in es && Unnumbered(u, p) ensures LastWord(es, p, u) {
        LastWordNeeded(s, es, p, u);
      }
    } else {
      NumberedIfNotUnnumbered(es, p);
      ClearsMustBeOutranked(s, es, p);
      NewestMustBeUnique(s, es, p);
    }
  }

  lemma NewestMustBeUnique<B>(s: map<Pane, Stamped<B>>, es: seq<Event<B>>, p: Pane)
    requires Sequenced(es, p) && ClearsOutranked(Held(s, p), es, p) && forall es' :: SameOutcome(s, es, es')
    ensures NewestUnique(Held(s, p), es, p)
  {
    forall e, f |
      && e in es && UpdateOf(e, p) && f in es && UpdateOf(f, p)
      && e.seqNo == f.seqNo && !Stale(Held(s, p), e)
      && (forall u :: u in es && UpdateOf(u, p) ==> u.seqNo.value <= e.seqNo.value)
      ensures e.body == f.body
    {
      EitherNewestWins(Held(s, p), es, p, e);
      EitherNewestWins(Held(s, p), es, p, f);
      HeldAfter(s, [e] + es, p);
      HeldAfter(s, [f] + es, p);
      assert SameOutcome(s, es, [e] + es) && SameOutcome(s, es, [f] + es);
    }
  }

  lemma ClearsMustBeOutranked<B>(s: map<Pane, Stamped<B>>, es: seq<Event<B>>, p: Pane)
    requires Sequenced(es, p) && forall es' :: SameOutcome(s, es, es')
    ensures ClearsOutranked(Held(s, p), es, p)
  {
    if HasUpdate(es, p) {
      var u :| u in es && UpdateOf(u, p);
      forall c | c in es && c.Clear? && c.pane == p && !Stale(Held(s, p), c)
        ensures Outranked(es, c)
      {
        if !Outranked(es, c) {
          UnrankedClearMatters(s, es, c, u);
        }
      }
    }
  }

  lemma UnrankedClearMatters<B>(s: map<Pane, Stamped<B>>, es: seq<Event<B>>, c: Event<B>, u: Event<B>)
    requires Sequenced(es, c.pane) && c in es && c.Clear? && !Stale(Held(s, c.pane), c) && !Outranked(es, c)
    requires u in es && UpdateOf(u, c.pane)
    ensures !(SameOutcome(s, es, es + [c]) && SameOutcome(s, es, es + [c] + [u]))
  {
    ClearThenUpdate(Held(s, c.pane), es, c.pane, c, u);
    HeldAfter(s, es + [c], c.pane);
    HeldAfter(s, es + [c] + [u], c.pane);
  }

  /**
   What is held depends on the set of delivered events alone, whatever their order and
   however often each is repeated, exactly when every pane meets its condition.
   */
  lemma OrderIndependentIff<B>(s: map<Pane, Stamped<B>>, es: seq<Event<B>>)
    ensures (forall es' :: SameEvents(es, es') ==> DeliverAll(s, es') == DeliverAll(s, es)) <==>
            (forall p :: OrderFree(Held(s, p), es, p))
  {
    if forall p :: OrderFree(Held(s, p), es, p) {
      forall es' | SameEvents(es, es')
        ensures DeliverAll(s, es') == DeliverAll(s, es)
      {
        OrderFreeSuffices(s, es, es');
      }
    }
    if forall es' :: SameEvents(es, es') ==> DeliverAll(s, es') == DeliverAll(s, es) {
      assert forall es' :: SameOutcome(s, es, es');
      forall p: Pane
        ensures OrderFree(Held(s, p), es, p)
      {
        OrderFreeNecessary(s, es, p);
      }
    }
  }

  /** Briefs are never cleared: the set decides as soon as a number names one brief. */
  lemma UpdatesOrderIndependent<B>(s: map<Pane, Stamped<B>>, es: seq<Event<B>>, es': seq<Event<B>>)
    requires (forall e :: e in es ==> e.Update? && e.seqNo.Some?) && SameEvents(es, es')
    requires forall e, f :: e in es && f in es && e.pane == f.pane && e.seqNo == f.seqNo ==> e.body == f.body
    ensures DeliverAll(s, es') == DeliverAll(s, es)
  {
    forall p: Pane
      ensures OrderFree(Held(s, p), es, p)
    {
    }
    OrderFreeSuffices(s, es, es');
  }

  /**
   A cleared pane has no number left to compare with: an update from before the clear that
   arrives late brings it back.
   */
  lemma LateUpdateReturns()
    ensures var u, c := Update("p", Some(1), "working"), Clear("p", Some(2));
            && SameEvents([u, c], [c, u])
            && DeliverAll(map[], [u, c]) == map[] && DeliverAll(map[], [c, u]) == map["p" := Stamped(1, "working")]
  {
    var u, c: Event<string> := Update("p", Some(1), "working"), Clear("p", Some(2));
    assert [u, c][1..] == [c] && [c, u][1..] == [u];
    assert DeliverAll(map[], [u, c]) == DeliverAll(Deliver(map[], u), [c]) == Deliver(Deliver(map[], u), c);
    assert DeliverAll(map[], [c, u]) == DeliverAll(Deliver(map[], c), [u]) == Deliver(Deliver(map[], c), u);
  }

  // ---------- The handlers ----------

  datatype RunInfo = RunInfo(startedAt: Option<int>, avgMs: Option<int>, state: string, stateSince: Option<int>)

  datatype AgentRun = AgentRun(paneId: Pane, startedAt: Option<int>, avgMs: Option<int>, running: bool,
                               state: Option<string>, stateSince: Option<int>, seqNo: Option<int>)

  ghost function RunEvent(r: AgentRun): Event<RunInfo> {
    if r.state == Some("unknown") then Clear(r.paneId, r.seqNo)
    else Update(r.paneId, r.seqNo,
                RunInfo(if r.running then r.startedAt else None, r.avgMs, r.state.Or("unknown"), r.stateSince))
  }

  /** What is shown of a run: its number, its timing as reported, a start only while it runs, and its state. */
  ghost predicate Shows(held: Stamped<RunInfo>, r: AgentRun) {
    && (match r.seqNo case Some(n) => held.seqNo == n case None => held.seqNo == 0)
    && held.body.avgMs == r.avgMs && held.body.stateSince == r.stateSince
    && (r.running ==> held.body.startedAt == r.startedAt)
    && (!r.running ==> held.body.startedAt.None?)
    && (match r.state case Some(state) => held.body.state == state case None => held.body.state == "unknown")
  }

  class PaneSignals {
    var agentRuns: map<Pane, Stamped<RunInfo>>
    var briefs: map<Pane, Stamped<string>>

    method OnAgentRun(r: AgentRun)
      modifies this`agentRuns
      ensures agentRuns == Deliver(old(agentRuns), RunEvent(r))
      ensures forall p :: p != r.paneId ==> Held(agentRuns, p) == Held(old(agentRuns), p)
      ensures var held := Held(old(agentRuns), r.paneId);
              if held.Some? && r.seqNo.Some? && r.seqNo.value <= held.value.seqNo then agentRuns == old(agentRuns)
              else if r.state == Some("unknown") then r.paneId !in agentRuns
              else r.paneId in agentRuns && Shows(agentRuns[r.paneId], r)
    {
      var pid := r.paneId;
      var seqNo := r.seqNo.Or(0);
      if pid in agentRuns && r.seqNo.Some? && seqNo <= agentRuns[pid].seqNo {
        return;
      }
      if r.state == Some("unknown") {
        agentRuns := agentRuns - {pid};
      } else {
        agentRuns := agentRuns[pid := Stamped(seqNo,
          RunInfo(if r.running then r.startedAt else None, r.avgMs, r.state.Or("unknown"), r.stateSince))];
      }
    }

    method OnBrief(pane: Pane, entry: Stamped<string>)
      modifies this`briefs
      ensures briefs == Deliver(old(briefs), Update(pane, Some(entry.seqNo), entry.body))
      ensures forall p :: p != pane ==> Held(briefs, p) == Held(old(briefs), p)
      ensures var held := Held(old(briefs), pane);
              Held(briefs, pane) == if held.Some? && held.value.seqNo >= entry.seqNo then held else Some(entry)
    {
      if pane in briefs && entry.seqNo <= briefs[pane].seqNo {
        return;
      }
      briefs := briefs[pane := entry];
    }
  }
}
