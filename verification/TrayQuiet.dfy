/**
 Balloons left waiting. Only the end of a balloon looks for the next one; the messages that
 take the speaking icon away, or its text, do not. For every message, the exact condition
 under which an icon with a text is left silent.
 */
module TrayQuiet {
  import opened WideText
  import opened TrayModel

  ghost predicate Waiting(t: Tray, but: nat) {
    exists j :: 0 <= j < |t.icons| && j != but && CanShow(t, j)
  }

  /** With no balloon due or up, no icon has one to show. */
  ghost predicate Quiet(t: Tray) {
    t.balloon.None? ==> !Waiting(t, |t.icons|)
  }

  predicate Speaks(t: Tray, i: nat) {
    i < |t.icons| && t.balloon == Some(t.icons[i].window)
  }

  ghost predicate OwnedSpeaker(t: Tray, owner: nat) {
    exists i: nat :: Speaks(t, i) && t.icons[i].owner == owner
  }

  ghost predicate OthersWaiting(t: Tray, owner: nat) {
    exists j :: 0 <= j < |t.icons| && t.icons[j].owner != owner && CanShow(t, j)
  }

  /** The message takes the speaking icon or its text away while another icon has something to say. */
  ghost predicate LeavesWaiting(t: Tray, e: Event) {
    match e
    case NotifyModify(q) =>
      var i := Find(t.icons, q.owner, q.id);
      Speaks(t, i) && (Requested(t.icons[i], q).hide || (q.setInfo && q.info == [])) && Waiting(t, i)
    case NotifyDelete(q) => var i := Find(t.icons, q.owner, q.id); Speaks(t, i) && Waiting(t, i)
    case OwnerGone(w) => var i := FindWindow(t.icons, w); Speaks(t, i) && Waiting(t, i)
    case OwnerDestroyed(owner) => OwnedSpeaker(t, owner) && OthersWaiting(t, owner)
    case CloseTray => t.taskbar && Waiting(t, |t.icons|)
    case _ => false
  }

  // ----------------------------------------------------------- one icon taken or changed

  /** But for icon i, the same icons have a balloon to show. */
  ghost predicate SameShows(t: Tray, r: Tray, i: nat) {
    |r.icons| == |t.icons| && forall j :: 0 <= j < |t.icons| && j != i ==> (CanShow(r, j) <==> CanShow(t, j))
  }

  lemma {:induction false} SameShowsChain(a: Tray, b: Tray, c: Tray, i: nat)
    requires SameShows(a, b, i) && SameShows(b, c, i)
    ensures SameShows(a, c, i)
  {
  }

  /** Settled at i: with no balloon, icon i has nothing to show; and the others are as they were. */
  lemma {:induction false} QuietBut(t: Tray, r: Tray, i: nat)
    requires i < |t.icons| && SameShows(t, r, i) && (r.balloon.None? ==> !CanShow(r, i))
    ensures Quiet(r) <==> (r.balloon.None? ==> !Waiting(t, i))
  {
  }

  lemma {:induction false} UpdateShows(t: Tray, i: nat)
    requires i < |t.icons|
    ensures var r := UpdateBalloon(t, i);
      && r.icons == t.icons && SameShows(t, r, |t.icons|)
      && r.balloon == if t.balloon.Some? && !Speaks(t, i) then t.balloon
                      else if CanShow(t, i) then Some(t.icons[i].window) else None
  {
  }

  lemma {:induction false} VacateCanShow(t: Tray, i: nat, j: nat)
    requires Inv(t) && i < |t.icons| && j < |t.icons| && t.icons[i].display != HIDDEN
    ensures CanShow(RemoveSlot(t, i), j) <==> j != i && CanShow(t, j)
  {
    VacateKeeps(t.icons, i, t.shown);
    if j != i { VacateOrder(t.icons, i, t.shown, j, j); }
  }

  /** The icon that speaks is displayed and has a text. */
  lemma {:induction false} SpeakerShows(t: Tray, i: nat)
    requires Inv(t) && Speaks(t, i)
    ensures CanShow(t, i)
  {
    var w := t.balloon.value;
    var k :| 0 <= k < |t.icons| && t.icons[k].window == w && t.icons[k].display != HIDDEN && t.icons[k].info != [];
  }

  lemma {:induction false} HideIconShows(t: Tray, i: nat)
    requires Inv(t) && i < |t.icons|
    ensures var r := HideIcon(t, i);
      && SameShows(t, r, i) && !CanShow(r, i)
      && r.balloon == if Speaks(t, i) then None else t.balloon
  {
    if t.icons[i].display != HIDDEN {
      var removed := RemoveSlot(t, i);
      forall j | 0 <= j < |t.icons| ensures CanShow(removed, j) <==> j != i && CanShow(t, j) { VacateCanShow(t, i, j); }
      VacateKeeps(t.icons, i, t.shown);
      assert removed.icons[i].window == t.icons[i].window && removed.balloon == t.balloon;
      UpdateShows(removed, i);
    } else if Speaks(t, i) {
      SpeakerShows(t, i);
    }
  }

  lemma {:induction false} ShowIconShows(t: Tray, i: nat)
    requires Inv(t) && i < |t.icons| && (t.balloon.None? && t.icons[i].display != HIDDEN ==> !CanShow(t, i))
    ensures var r := ShowIcon(t, i);
      && SameShows(t, r, i) && (r.balloon.None? ==> !CanShow(r, i)) && (t.balloon.Some? ==> r.balloon == t.balloon)
      && (t.icons[i].display != HIDDEN ==> r == t)
  {
    if !t.noItems && t.icons[i].display == HIDDEN {
      if Speaks(t, i) { SpeakerShows(t, i); }
      UpdateShows(AddSlot(t, i), i);
    }
  }

  /** Hiding an icon leaves a balloon waiting exactly when it was the one speaking and another has something to say. */
  lemma {:induction false} HideLeavesWaiting(t: Tray, i: nat)
    requires Inv(t) && Quiet(t) && i < |t.icons|
    ensures Quiet(HideIcon(t, i)) <==> !(Speaks(t, i) && Waiting(t, i))
  {
    HideIconShows(t, i);
    QuietBut(t, HideIcon(t, i), i);
  }

  // ------------------------------------------------------------------ the messages

  /** After the request and, if it carries a text, the update of the balloon. */
  function Told(t: Tray, i: nat, q: Request): Tray
    requires i < |t.icons|
  {
    var asked := t.(icons := t.icons[i := Requested(t.icons[i], q)]);
    if q.setInfo then UpdateBalloon(asked, i) else asked
  }

  lemma {:induction false} ToldShows(t: Tray, i: nat, q: Request)
    requires Inv(t) && Quiet(t) && i < |t.icons|
    ensures var r := Told(t, i, q);
      && Inv(r) && SameShows(t, r, i) && r.icons[i] == Requested(t.icons[i], q) && (r.balloon.None? ==> !CanShow(r, i))
      && (t.balloon.Some? && !Speaks(t, i) ==> r.balloon == t.balloon)
      && (Speaks(t, i) ==> r.icons[i].display != HIDDEN)
      && (Speaks(t, i) ==> r.balloon == if q.setInfo && q.info == [] then None else t.balloon)
  {
    var asked := t.(icons := t.icons[i := Requested(t.icons[i], q)]);
    RequestKeeps(t, i, q);
    if Speaks(t, i) { SpeakerShows(t, i); }
    if q.setInfo {
      UpdateBalloonKeeps(asked, i);
      UpdateShows(asked, i);
    }
  }

  lemma {:induction false} ModifyQuiet(t: Tray, i: nat, q: Request)
    requires Inv(t) && Quiet(t) && i < |t.icons|
    ensures Quiet(Modify(t, i, q)) <==>
      !(Speaks(t, i) && (Requested(t.icons[i], q).hide || (q.setInfo && q.info == [])) && Waiting(t, i))
  {
    hide Inv, CanShow, HideIcon, ShowIcon;
    ToldShows(t, i, q);
    var told, r := Told(t, i, q), Modify(t, i, q);
    if told.icons[i].hide { HideIconShows(told, i); } else { ShowIconShows(told, i); }
    SameShowsChain(t, told, r, i);
    QuietBut(t, r, i);
  }

  /** A new icon has a new window, so it is not the one speaking. */
  lemma {:induction false} AddQuiet(t: Tray, q: Request)
    requires Inv(t) && Quiet(t)
    ensures Quiet(Add(t, q))
  {
    var n := |t.icons|;
    if Find(t.icons, q.owner, q.id) == n {
      var l := Listed(t, q);
      ListedKeeps(t, q);
      assert forall j :: 0 <= j < n ==> (CanShow(l, j) <==> CanShow(t, j));
      if Speaks(l, n) { SpeakerShows(l, n); }
      ModifyQuiet(l, n, q);
    }
  }

  /** The icons after a deletion are the others, and as ready to speak as before. */
  lemma {:induction false} DeleteShows(t: Tray, i: nat, j: nat)
    requires Inv(t) && i < |t.icons| && j < |t.icons| && j != i
    ensures var r := Delete(t, i);
      var k := if j < i then j else j - 1;
      (CanShow(r, k) <==> CanShow(t, j)) && r.icons[k].owner == t.icons[j].owner && r.icons[k].window == t.icons[j].window
  {
    HideIconShows(t, i);
    HideIconKeeps(t, i);
    var h, r := HideIcon(t, i), Delete(t, i);
    assert r.icons[if j < i then j else j - 1] == h.icons[j];
  }

  lemma {:induction false} DeleteBalloon(t: Tray, i: nat)
    requires Inv(t) && i < |t.icons|
    ensures Delete(t, i).balloon == if Speaks(t, i) then None else t.balloon
  {
    HideIconShows(t, i);
  }

  lemma {:induction false} DeleteWaiting(t: Tray, i: nat)
    requires Inv(t) && i < |t.icons|
    ensures Waiting(Delete(t, i), |t.icons| - 1) <==> Waiting(t, i)
  {
    hide Inv, Delete, CanShow;
    var r := Delete(t, i);
    if Waiting(t, i) {
      var j :| 0 <= j < |t.icons| && j != i && CanShow(t, j);
      DeleteShows(t, i, j);
    }
    if Waiting(r, |t.icons| - 1) {
      var k :| 0 <= k < |r.icons| && k != |t.icons| - 1 && CanShow(r, k);
      DeleteShows(t, i, if k < i then k else k + 1);
    }
  }

  lemma {:induction false} DeleteQuiet(t: Tray, i: nat)
    requires Inv(t) && Quiet(t) && i < |t.icons|
    ensures Quiet(Delete(t, i)) <==> !(Speaks(t, i) && Waiting(t, i))
  {
    hide Inv, Delete, CanShow;
    DeleteBalloon(t, i);
    DeleteWaiting(t, i);
  }

  lemma {:induction false} DeleteOthersWaiting(t: Tray, i: nat, owner: nat)
    requires Inv(t) && i < |t.icons| && t.icons[i].owner == owner
    ensures OthersWaiting(Delete(t, i), owner) <==> OthersWaiting(t, owner)
  {
    hide Inv, Delete, CanShow;
    var r := Delete(t, i);
    if OthersWaiting(t, owner) {
      var j :| 0 <= j < |t.icons| && t.icons[j].owner != owner && CanShow(t, j);
      DeleteShows(t, i, j);
    }
    if OthersWaiting(r, owner) {
      var k :| 0 <= k < |r.icons| && r.icons[k].owner != owner && CanShow(r, k);
      DeleteShows(t, i, if k < i then k else k + 1);
    }
  }

  lemma {:induction false} DeleteOwnedSpeaker(t: Tray, i: nat, owner: nat)
    requires Inv(t) && i < |t.icons| && t.icons[i].owner == owner
    ensures var r := Delete(t, i);
      && (Speaks(t, i) ==> r.balloon == None && !OwnedSpeaker(r, owner) && OwnedSpeaker(t, owner))
      && (!Speaks(t, i) ==> r.balloon == t.balloon && (OwnedSpeaker(r, owner) <==> OwnedSpeaker(t, owner)))
  {
    hide Inv, Delete, CanShow;
    var r := Delete(t, i);
    DeleteBalloon(t, i);
    if !Speaks(t, i) {
      if OwnedSpeaker(t, owner) {
        var j: nat :| Speaks(t, j) && t.icons[j].owner == owner;
        DeleteShows(t, i, j);
        assert Speaks(r, if j < i then j else j - 1);
      }
      if OwnedSpeaker(r, owner) {
        var k: nat :| Speaks(r, k) && r.icons[k].owner == owner;
        var j := if k < i then k else k + 1;
        DeleteShows(t, i, j);
        assert Speaks(t, j);
      }
    }
  }

  /** Cleaning up after an owner silences its speaking icon and nothing else. */
  lemma {:induction false} CleanupBalloon(t: Tray, k: nat, owner: nat)
    requires k <= |t.icons| && Inv(t) && forall i :: 0 <= i < k ==> t.icons[i].owner != owner
    ensures var r := Cleanup(t, k, owner);
      && r.balloon == (if OwnedSpeaker(t, owner) then None else t.balloon)
      && (Waiting(r, |r.icons|) <==> OthersWaiting(t, owner))
    decreases |t.icons| - k
  {
    hide Inv, Delete, CanShow;
    if k == |t.icons| {
    } else if t.icons[k].owner == owner {
      var r := Delete(t, k);
      DeleteKeeps(t, k);
      DeleteOwnedSpeaker(t, k, owner);
      DeleteOthersWaiting(t, k, owner);
      forall i | 0 <= i < k ensures r.icons[i].owner != owner { DeleteShows(t, k, i); }
      CleanupBalloon(r, k, owner);
    } else {
      CleanupBalloon(t, k + 1, owner);
    }
  }

  lemma {:induction false} CleanupQuiet(t: Tray, owner: nat)
    requires Inv(t) && Quiet(t)
    ensures Quiet(Cleanup(t, 0, owner)) <==> !(OwnedSpeaker(t, owner) && OthersWaiting(t, owner))
  {
    CleanupBalloon(t, 0, owner);
  }

  lemma {:induction false} NextBalloonQuiet(t: Tray, k: nat)
    requires k <= |t.icons| && t.balloon == None && forall j :: 0 <= j < k ==> !CanShow(t, j)
    ensures Quiet(NextBalloon(t, k))
    decreases |t.icons| - k
  {
    if k < |t.icons| && !CanShow(t, k) { NextBalloonQuiet(t, k + 1); }
  }

  /** The end of a balloon looks for the next one. */
  lemma {:induction false} TimerQuiet(t: Tray, w: nat, timer: Timer)
    requires Inv(t) && Quiet(t)
    ensures Quiet(Step(t, TimerFires(w, timer)))
  {
    var i := FindWindow(t.icons, w);
    if (w, timer) in t.timers && i < |t.icons| && timer == ShowTimer {
      NextBalloonQuiet(HideBalloon(t.(icons := t.icons[i := t.icons[i].(info := [])])), 0);
    }
  }

  /** An icon taken out and put back speaks again if it spoke before. */
  lemma {:induction false} RefreshOneQuiet(t: Tray, k: nat)
    requires Inv(t) && Quiet(t) && k < |t.icons| && !t.noItems
    ensures var r := ShowIcon(HideIcon(t, k), k); Quiet(r) && !r.noItems
  {
    var h := HideIcon(t, k);
    HideIconKeeps(t, k);
    HideIconShows(t, k);
    ShowIconShows(h, k);
    HiddenContext(t, k);
    ShownContext(h, k);
    if Speaks(t, k) {
      SpeakerShows(t, k);
      UpdateShows(AddSlot(h, k), k);
    }
    SameShowsChain(t, h, ShowIcon(h, k), k);
    QuietBut(t, ShowIcon(h, k), k);
  }

  lemma {:induction false} HiddenContext(t: Tray, i: nat)
    requires Inv(t) && i < |t.icons|
    ensures var r := HideIcon(t, i);
      && r.noItems == t.noItems && r.taskbar == t.taskbar && r.standalone == t.standalone
      && r.icons[i].info == t.icons[i].info && r.icons[i].display == HIDDEN
  {
  }

  lemma {:induction false} ShownContext(t: Tray, i: nat)
    requires i < |t.icons|
    ensures ShowIcon(t, i).noItems == t.noItems
  {
  }

  lemma {:induction false} RefreshQuiet(t: Tray, k: nat)
    requires k <= |t.icons| && Inv(t) && Quiet(t) && !t.noItems
    ensures Quiet(Refresh(t, k))
    decreases |t.icons| - k
  {
    hide Inv, Quiet, ShowIcon, HideIcon;
    if k < |t.icons| {
      RefreshOneQuiet(t, k);
      HideIconKeeps(t, k);
      ShowIconKeeps(HideIcon(t, k), k);
      RefreshQuiet(ShowIcon(HideIcon(t, k), k), k + 1);
    }
  }

  lemma {:induction false} NotShown(t: Tray, i: nat)
    requires i < |t.icons| && t.noItems
    ensures ShowIcon(t, i) == t
  {
  }

  lemma {:induction false} StaysHidden(t: Tray, i: nat, j: nat)
    requires Inv(t) && i < |t.icons| && j < |t.icons| && t.icons[j].display == HIDDEN
    ensures HideIcon(t, i).icons[j].display == HIDDEN
  {
    if t.icons[i].display != HIDDEN && j != i { VacateOrder(t.icons, i, t.shown, j, j); }
  }

  /** Where no items are allowed, a refresh only takes icons out. */
  lemma {:induction false} RefreshEmpties(t: Tray, k: nat)
    requires k <= |t.icons| && Inv(t) && t.noItems && forall j :: 0 <= j < k ==> t.icons[j].display == HIDDEN
    ensures Quiet(Refresh(t, k))
    decreases |t.icons| - k
  {
    hide Inv, HideIcon, ShowIcon;
    if k < |t.icons| {
      var h := HideIcon(t, k);
      HideIconKeeps(t, k);
      HiddenContext(t, k);
      forall j | 0 <= j < k ensures h.icons[j].display == HIDDEN {
        StaysHidden(t, k, j);
      }
      NotShown(h, k);
      RefreshEmpties(h, k + 1);
    }
  }

  lemma {:induction false} CloseQuiet(t: Tray)
    requires Inv(t) && Quiet(t)
    ensures Quiet(Step(t, CloseTray)) <==> !(t.taskbar && Waiting(t, |t.icons|))
  {
    var r := Step(t, CloseTray);
    assert forall j :: 0 <= j < |t.icons| ==> (CanShow(r, j) <==> t.taskbar && CanShow(t, j));
  }

  lemma {:induction false} VersionQuiet(t: Tray, q: Request)
    requires Quiet(t)
    ensures Quiet(Step(t, NotifyVersion(q)))
  {
    var r := Step(t, NotifyVersion(q));
    assert forall j :: 0 <= j < |t.icons| ==> (CanShow(r, j) <==> CanShow(t, j));
  }

  /** For every message: nothing is left waiting exactly when the condition on tray and message is not met. */
  lemma {:induction false} StepQuiet(t: Tray, e: Event)
    requires Inv(t) && Quiet(t)
    ensures Quiet(Step(t, e)) <==> !LeavesWaiting(t, e)
  {
    hide Inv, Quiet, Waiting, Add, Modify, Delete, Cleanup, Refresh;
    match e
    case NotifyAdd(q) => AddQuiet(t, q);
    case NotifyModify(q) =>
      var i := Find(t.icons, q.owner, q.id);
      if i < |t.icons| { ModifyQuiet(t, i, q); }
    case NotifyDelete(q) =>
      var i := Find(t.icons, q.owner, q.id);
      if i < |t.icons| { DeleteQuiet(t, i); }
    case NotifyVersion(q) => VersionQuiet(t, q);
    case OwnerDestroyed(owner) => CleanupQuiet(t, owner);
    case OwnerGone(w) =>
      var i := FindWindow(t.icons, w);
      if i < |t.icons| { DeleteQuiet(t, i); }
    case TimerFires(w, timer) => TimerQuiet(t, w, timer);
    case CloseTray => CloseQuiet(t);
    case RefreshAll => if t.noItems { RefreshEmpties(t, 0); } else { RefreshQuiet(t, 0); }
  }

  /** None of the messages meets its condition when it arrives. */
  ghost predicate NoneLeavesWaiting(t: Tray, es: seq<Event>)
    decreases |es|
  {
    es == [] || (!LeavesWaiting(t, es[0]) && NoneLeavesWaiting(Step(t, es[0]), es[1..]))
  }

  /** Whole runs: as long as no message meets its condition, no balloon is ever left waiting. */
  lemma {:induction false} RunQuiet(t: Tray, es: seq<Event>)
    requires Inv(t) && Quiet(t) && NoneLeavesWaiting(t, es)
    ensures Quiet(Run(t, es))
    decreases |es|
  {
    hide Inv, Quiet, LeavesWaiting, Step;
    if es != [] {
      StepQuiet(t, es[0]);
      StepKeeps(t, es[0]);
      RunQuiet(Step(t, es[0]), es[1..]);
    }
  }

  /** Two icons with a text each: deleting the one that speaks leaves the other silent. */
  lemma {:induction false} WaitingExample()
    ensures var first := Request(1, 1, false, false, false, true, [65], 0, 0);
      var second := Request(2, 2, false, false, false, true, [66], 0, 0);
      var t := Run(Initial(true, false, false), [NotifyAdd(first), NotifyAdd(second), NotifyDelete(first)]);
      t.balloon == None && t.icons == [Icon(2, 2, 2, 0, false, [66], MIN_TIMEOUT, 0)] && CanShow(t, 0)
  {
    var first := Request(1, 1, false, false, false, true, [65], 0, 0);
    var second := Request(2, 2, false, false, false, true, [66], 0, 0);
    var t0 := Initial(true, false, false);
    var t1 := Step(t0, NotifyAdd(first));
    assert t1.icons == [Icon(1, 1, 1, 0, false, [65], MIN_TIMEOUT, 0)];
    var t2 := Step(t1, NotifyAdd(second));
    assert t2.icons == [Icon(1, 1, 1, 0, false, [65], MIN_TIMEOUT, 0), Icon(2, 2, 2, 0, false, [66], MIN_TIMEOUT, 1)];
    var t3 := Step(t2, NotifyDelete(first));
    assert t3.icons == [Icon(2, 2, 2, 0, false, [66], MIN_TIMEOUT, 0)];
    var es := [NotifyAdd(first), NotifyAdd(second), NotifyDelete(first)];
    assert es[1..] == [NotifyAdd(second), NotifyDelete(first)] && es[1..][1..] == [NotifyDelete(first)];
    assert Run(t2, [NotifyDelete(first)]) == Run(t3, []);
  }

  /** The same two icons: the one that speaks gets an empty text, and the other stays silent. */
  lemma {:induction false} EmptyTextExample()
    ensures var first := Request(1, 1, false, false, false, true, [65], 0, 0);
      var second := Request(2, 2, false, false, false, true, [66], 0, 0);
      var t := Run(Initial(true, false, false), [NotifyAdd(first), NotifyAdd(second)]);
      Inv(t) && Quiet(t) && LeavesWaiting(t, NotifyModify(first.(info := []))) && LeavesWaiting(t, CloseTray)
  {
    var first := Request(1, 1, false, false, false, true, [65], 0, 0);
    var second := Request(2, 2, false, false, false, true, [66], 0, 0);
    var t0 := Initial(true, false, false);
    var es := [NotifyAdd(first), NotifyAdd(second)];
    var t1 := Step(t0, NotifyAdd(first));
    assert t1.icons == [Icon(1, 1, 1, 0, false, [65], MIN_TIMEOUT, 0)];
    var t2 := Step(t1, NotifyAdd(second));
    assert t2.icons == [Icon(1, 1, 1, 0, false, [65], MIN_TIMEOUT, 0), Icon(2, 2, 2, 0, false, [66], MIN_TIMEOUT, 1)];
    assert es[1..] == [NotifyAdd(second)] && Run(t1, [NotifyAdd(second)]) == Run(t2, []);
    EveryRun(true, false, false, es);
    assert Speaks(t2, 0) && CanShow(t2, 1) && Waiting(t2, 0) && Waiting(t2, 2);
  }
}
