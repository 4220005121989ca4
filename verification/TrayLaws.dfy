/**
 What each message does to the notification area, icon by icon and slot by slot, and whose
 balloon is due afterwards; said of the tray before and after, whatever the steps between.
 */
module TrayLaws {
  import opened WideText
  import opened TrayModel

  // ---------------------------------------------------------------- before and after

  /** What a request asks of an icon; its slot is another matter. */
  ghost predicate Asked(was: Icon, now: Icon, q: Request) {
    && now.window == was.window && now.owner == was.owner && now.id == was.id && now.version == was.version
    && (q.setState && q.hideMask ==> now.hide == q.hide)
    && (!(q.setState && q.hideMask) ==> now.hide == was.hide)
    && (q.setInfo ==> now.info == q.info && 10000 <= now.timeout <= 30000)
    && (q.setInfo && 10000 <= q.timeout <= 30000 ==> now.timeout == q.timeout)
    && (q.setInfo && q.timeout < 10000 ==> now.timeout == 10000)
    && (q.setInfo && q.timeout > 30000 ==> now.timeout == 30000)
    && (!q.setInfo ==> now.info == was.info && now.timeout == was.timeout)
  }

  /** The others keep everything. */
  ghost predicate OthersAsTheyWere(t: Tray, i: nat, r: Tray) {
    |r.icons| == |t.icons| && forall j :: 0 <= j < |t.icons| && j != i ==> r.icons[j] == t.icons[j]
  }

  /** Icon i left its slot: the icons behind it moved down by one, the others keep theirs. */
  ghost predicate ClosedUp(t: Tray, i: nat, r: Tray)
    requires i < |t.icons|
  {
    && |r.icons| == |t.icons| && r.shown == t.shown - 1
    && forall j :: 0 <= j < |t.icons| && j != i ==>
         && (t.icons[j].display > t.icons[i].display ==> r.icons[j] == t.icons[j].(display := t.icons[j].display - 1))
         && (t.icons[j].display < t.icons[i].display ==> r.icons[j] == t.icons[j])
  }

  /** Where icon i and the others are, by whether icon i was and is displayed. */
  ghost predicate Seated(t: Tray, i: nat, r: Tray) {
    && i < |t.icons| == |r.icons|
    && var was, now := t.icons[i].display, r.icons[i].display;
       if was == HIDDEN && now != HIDDEN then now == t.shown && r.shown == t.shown + 1 && OthersAsTheyWere(t, i, r)
       else if was != HIDDEN && now == HIDDEN then ClosedUp(t, i, r)
       else now == was && r.shown == t.shown && OthersAsTheyWere(t, i, r)
  }

  /** Whether an icon can have a balloon at all. */
  ghost predicate HasBalloon(t: Tray, i: nat) {
    i < |t.icons| && (t.taskbar || t.standalone) && t.icons[i].display != HIDDEN && t.icons[i].info != []
  }

  /** The balloon of another icon goes on; otherwise icon i gets a fresh one if it can have one. */
  ghost predicate Renewed(t: Tray, i: nat, r: Tray)
    requires i < |t.icons| && i < |r.icons|
  {
    if t.balloon.Some? && t.balloon.value != t.icons[i].window then r.balloon == t.balloon && r.balloonUp == t.balloonUp
    else r.balloon == (if HasBalloon(r, i) then Some(r.icons[i].window) else None) && !r.balloonUp
  }

  ghost predicate SameSettings(t: Tray, r: Tray) {
    r.taskbar == t.taskbar && r.standalone == t.standalone && r.noItems == t.noItems
  }

  /** A request has been carried out on icon i. */
  ghost predicate CarriedOut(t: Tray, i: nat, q: Request, r: Tray) {
    && Seated(t, i, r) && Asked(t.icons[i], r.icons[i], q) && SameSettings(t, r) && r.nextWindow == t.nextWindow
    && (r.icons[i].display != HIDDEN <==> !r.icons[i].hide && (t.icons[i].display != HIDDEN || !t.noItems))
    && (if q.setInfo || (t.icons[i].display == HIDDEN) != (r.icons[i].display == HIDDEN) then Renewed(t, i, r)
        else r.balloon == t.balloon && r.balloonUp == t.balloonUp)
  }

  // -------------------------------------------------------------------- the pieces

  lemma {:induction false} UpdateMeans(t: Tray, i: nat)
    requires i < |t.icons| && OneTimer(t)
    ensures var r := UpdateBalloon(t, i);
      && Renewed(t, i, r) && OneTimer(r)
      && r == t.(balloon := r.balloon, balloonUp := r.balloonUp, timers := r.timers)
  {
  }

  lemma {:induction false} HideMeans(t: Tray, i: nat)
    requires i < |t.icons| && Slots(t.icons, t.shown) && OneTimer(t)
    ensures var r := HideIcon(t, i);
      && Seated(t, i, r) && SameSettings(t, r) && r.nextWindow == t.nextWindow && OneTimer(r)
      && r.icons[i] == t.icons[i].(display := HIDDEN)
      && (if t.icons[i].display != HIDDEN then Renewed(t, i, r) else r == t)
  {
    if t.icons[i].display != HIDDEN {
      hide UpdateBalloon;
      VacateKeeps(t.icons, i, t.shown);
      UpdateMeans(RemoveSlot(t, i), i);
      assert ClosedUp(t, i, RemoveSlot(t, i)) by { hide Slots; }
    }
  }

  lemma {:induction false} ShowMeans(t: Tray, i: nat)
    requires i < |t.icons| && OneTimer(t)
    ensures var r := ShowIcon(t, i);
      && Seated(t, i, r) && SameSettings(t, r) && r.nextWindow == t.nextWindow && OneTimer(r)
      && r.icons[i] == t.icons[i].(display := r.icons[i].display)
      && (r.icons[i].display != HIDDEN <==> t.icons[i].display != HIDDEN || !t.noItems)
      && (if t.icons[i].display == HIDDEN && !t.noItems then Renewed(t, i, r) else r == t)
  {
    if t.icons[i].display == HIDDEN && !t.noItems {
      hide UpdateBalloon;
      UpdateMeans(AddSlot(t, i), i);
    }
  }

  lemma {:induction false} RequestedAsked(icon: Icon, q: Request)
    ensures Asked(icon, Requested(icon, q), q) && Requested(icon, q).display == icon.display
  {
  }

  lemma {:induction false} SeatedSizes(t: Tray, i: nat, r: Tray)
    requires Seated(t, i, r)
    ensures i < |t.icons| == |r.icons|
  {
  }

  lemma {:induction false} AskedKeys(was: Icon, now: Icon, q: Request)
    requires Asked(was, now, q)
    ensures now.window == was.window
  {
  }

  lemma {:induction false} RenewedSame(t: Tray, i: nat, asked: Tray, r: Tray)
    requires i < |t.icons| == |asked.icons| == |r.icons| && asked.icons[i].window == t.icons[i].window
    requires asked.balloon == t.balloon && asked.balloonUp == t.balloonUp && Renewed(asked, i, r)
    ensures Renewed(t, i, r)
  {
  }

  lemma {:induction false} AskedThenSeated(was: Icon, asked: Icon, now: Icon, q: Request)
    requires Asked(was, asked, q) && now == asked.(display := now.display)
    ensures Asked(was, now, q)
  {
  }

  /** Changing what icon i asks for does not matter to the slots. */
  lemma {:induction false} SeatedFrom(t: Tray, i: nat, icon: Icon, told: Tray, r: Tray)
    requires i < |t.icons| && icon.display == t.icons[i].display
    requires told.icons == t.icons[i := icon] && told.shown == t.shown && Seated(told, i, r)
    ensures Seated(t, i, r)
  {
  }

  lemma {:induction false} RenewedTwice(t: Tray, i: nat, told: Tray, r: Tray)
    requires i < |t.icons| == |told.icons| == |r.icons| && SameSettings(told, r)
    requires told.icons[i].window == t.icons[i].window == r.icons[i].window
    requires (told.balloon == t.balloon && told.balloonUp == t.balloonUp) || Renewed(t, i, told)
    requires Renewed(told, i, r)
    ensures Renewed(t, i, r)
  {
  }

  /** The request has been noted, and the balloon renewed if there is a text; the slots are still as before. */
  ghost predicate Told(t: Tray, i: nat, q: Request, told: Tray) {
    && i < |t.icons| && |told.icons| == |t.icons|
    && told == t.(icons := t.icons[i := told.icons[i]], balloon := told.balloon, balloonUp := told.balloonUp, timers := told.timers)
    && Asked(t.icons[i], told.icons[i], q) && told.icons[i].display == t.icons[i].display
    && (if q.setInfo then Renewed(t, i, told) else told.balloon == t.balloon && told.balloonUp == t.balloonUp)
  }

  lemma {:induction false} ToldMeans(t: Tray, i: nat, q: Request, asked: Tray, told: Tray)
    requires Inv(t) && i < |t.icons|
    requires asked == t.(icons := t.icons[i := Requested(t.icons[i], q)])
    requires told == if q.setInfo then UpdateBalloon(asked, i) else asked
    ensures Told(t, i, q, told) && Slots(told.icons, told.shown) && OneTimer(told)
  {
    hide Slots, Keys, Speaking, OneTimer, UpdateBalloon, Requested, Asked, Renewed;
    RequestKeeps(t, i, q);
    RequestedAsked(t.icons[i], q);
    AskedKeys(t.icons[i], asked.icons[i], q);
    if q.setInfo {
      UpdateMeans(asked, i);
      RenewedSame(t, i, asked, told);
    }
  }

  /** Then the icon is displayed or taken out, or stays as it is. */
  ghost predicate Finished(told: Tray, i: nat, r: Tray) {
    && Seated(told, i, r) && SameSettings(told, r) && r.nextWindow == told.nextWindow
    && r.icons[i] == told.icons[i].(display := r.icons[i].display)
    && (r.icons[i].display != HIDDEN <==> !told.icons[i].hide && (told.icons[i].display != HIDDEN || !told.noItems))
    && (if (told.icons[i].display == HIDDEN) != (r.icons[i].display == HIDDEN) then Renewed(told, i, r) else r == told)
  }

  lemma {:induction false} ToldFinished(t: Tray, i: nat, q: Request, told: Tray, r: Tray)
    requires Told(t, i, q, told) && Finished(told, i, r)
    ensures CarriedOut(t, i, q, r)
  {
    hide Asked, Renewed, Seated, HasBalloon;
    SeatedSizes(told, i, r);
    AskedKeys(t.icons[i], told.icons[i], q);
    AskedThenSeated(t.icons[i], told.icons[i], r.icons[i], q);
    SeatedFrom(t, i, told.icons[i], told, r);
    if (told.icons[i].display == HIDDEN) != (r.icons[i].display == HIDDEN) { RenewedTwice(t, i, told, r); }
  }

  lemma {:induction false} ModifyMeans(t: Tray, i: nat, q: Request)
    requires Inv(t) && i < |t.icons|
    ensures CarriedOut(t, i, q, Modify(t, i, q))
  {
    hide Inv, Slots, OneTimer, UpdateBalloon, HideIcon, ShowIcon, Requested, Renewed, Asked, Seated, CarriedOut;
    var asked := t.(icons := t.icons[i := Requested(t.icons[i], q)]);
    var told := if q.setInfo then UpdateBalloon(asked, i) else asked;
    ToldMeans(t, i, q, asked, told);
    if told.icons[i].hide { HideMeans(told, i); } else { ShowMeans(told, i); }
    SeatedSizes(told, i, Modify(t, i, q));
    ToldFinished(t, i, q, told, Modify(t, i, q));
  }

  // ------------------------------------------------------------------ every message

  /** The place of an icon in the list. */
  ghost predicate IsAt(t: Tray, i: nat, owner: nat, id: nat) {
    i < |t.icons| && t.icons[i].owner == owner && t.icons[i].id == id
  }

  ghost predicate Unlisted(t: Tray, owner: nat, id: nat) {
    forall i :: 0 <= i < |t.icons| ==> !IsAt(t, i, owner, id)
  }

  lemma {:induction false} FindIs(t: Tray, i: nat, owner: nat, id: nat)
    requires Keys(t.icons, t.nextWindow) && IsAt(t, i, owner, id)
    ensures Find(t.icons, owner, id) == i
  {
    var k := Find(t.icons, owner, id);
    assert k <= i;
  }

  lemma {:induction false} FindNone(t: Tray, owner: nat, id: nat)
    requires Unlisted(t, owner, id)
    ensures Find(t.icons, owner, id) == |t.icons|
  {
    var k := Find(t.icons, owner, id);
    assert !(k < |t.icons| && IsAt(t, k, owner, id));
  }

  /** A change of a listed icon carries out the request; of an unlisted one it does nothing. */
  lemma {:induction false} NotifyModifyMeans(t: Tray, q: Request)
    requires Inv(t)
    ensures forall i :: IsAt(t, i, q.owner, q.id) ==> CarriedOut(t, i, q, Step(t, NotifyModify(q)))
    ensures Unlisted(t, q.owner, q.id) ==> Step(t, NotifyModify(q)) == t
  {
    hide Modify, CarriedOut;
    forall i | IsAt(t, i, q.owner, q.id) ensures CarriedOut(t, i, q, Step(t, NotifyModify(q))) {
      FindIs(t, i, q.owner, q.id);
      ModifyMeans(t, i, q);
    }
    if Unlisted(t, q.owner, q.id) { FindNone(t, q.owner, q.id); }
  }

  /** A new icon as it is before its request is carried out. */
  ghost predicate NewIcon(icon: Icon, q: Request) {
    icon.owner == q.owner && icon.id == q.id && icon.version == 0 && !icon.hide && icon.info == [] && icon.timeout == 0 && icon.display == HIDDEN
  }

  /** An added icon is listed last, with the fields of its request and a window of its own. */
  ghost predicate AddedLast(t: Tray, q: Request, r: Tray) {
    exists listed: Tray ::
      && listed == t.(icons := listed.icons, nextWindow := t.nextWindow + 1)
      && |listed.icons| == |t.icons| + 1 && listed.icons[..|t.icons|] == t.icons
      && NewIcon(listed.icons[|t.icons|], q) && listed.icons[|t.icons|].window == t.nextWindow
      && CarriedOut(listed, |t.icons|, q, r)
  }

  lemma {:induction false} NotifyAddMeans(t: Tray, q: Request)
    requires Inv(t)
    ensures Unlisted(t, q.owner, q.id) ==> AddedLast(t, q, Step(t, NotifyAdd(q)))
    ensures !Unlisted(t, q.owner, q.id) ==> Step(t, NotifyAdd(q)) == t
  {
    hide Modify, CarriedOut;
    if Unlisted(t, q.owner, q.id) {
      FindNone(t, q.owner, q.id);
      ListedKeeps(t, q);
      ModifyMeans(Listed(t, q), |t.icons|, q);
    } else {
      var i: nat :| IsAt(t, i, q.owner, q.id);
      FindIs(t, i, q.owner, q.id);
    }
  }

  lemma {:induction false} CarriedOutNew(t: Tray, n: nat, q: Request, r: Tray)
    requires |t.icons| == n + 1 && !t.noItems && NewIcon(t.icons[n], q) && CarriedOut(t, n, q, r)
    ensures |r.icons| == n + 1 && r.icons[..n] == t.icons[..n] && r.icons[n].owner == q.owner && r.icons[n].id == q.id
    ensures r.icons[n].info == if q.setInfo then q.info else []
    ensures if q.setState && q.hideMask && q.hide then r.icons[n].display == HIDDEN && r.shown == t.shown
      else r.icons[n].display == t.shown && r.shown == t.shown + 1
  {
    hide Renewed, HasBalloon;
    assert OthersAsTheyWere(t, n, r);
  }

  /** An ordinary addition: with items allowed and no hide bit the icon takes the next free slot. */
  lemma {:induction false} AddDisplays(t: Tray, q: Request)
    requires Inv(t) && !t.noItems && Unlisted(t, q.owner, q.id)
    ensures var r, n := Step(t, NotifyAdd(q)), |t.icons|;
      && |r.icons| == n + 1 && r.icons[..n] == t.icons && r.icons[n].owner == q.owner && r.icons[n].id == q.id
      && (q.setInfo ==> r.icons[n].info == q.info) && (!q.setInfo ==> r.icons[n].info == [])
      && (if q.setState && q.hideMask && q.hide then r.icons[n].display == HIDDEN && r.shown == t.shown
          else r.icons[n].display == t.shown && r.shown == t.shown + 1)
  {
    NotifyAddMeans(t, q);
    var r, n := Step(t, NotifyAdd(q)), |t.icons|;
    hide Step, Inv, CarriedOut, NewIcon, Unlisted;
    var listed: Tray :|
      && listed == t.(icons := listed.icons, nextWindow := t.nextWindow + 1)
      && |listed.icons| == n + 1 && listed.icons[..n] == t.icons && NewIcon(listed.icons[n], q)
      && listed.icons[n].window == t.nextWindow && CarriedOut(listed, n, q, r);
    CarriedOutNew(listed, n, q, r);
  }

  /** Deleting icon i takes it from the list; its balloon goes with it, any other goes on. */
  ghost predicate Deleted(t: Tray, i: nat, r: Tray) {
    && i < |t.icons| == |r.icons| + 1 && SameSettings(t, r) && r.nextWindow == t.nextWindow
    && r.shown == (if t.icons[i].display == HIDDEN then t.shown else t.shown - 1)
    && (forall j :: 0 <= j < |t.icons| && j != i ==>
          r.icons[if j < i then j else j - 1] ==
            if t.icons[i].display != HIDDEN && t.icons[j].display > t.icons[i].display
            then t.icons[j].(display := t.icons[j].display - 1) else t.icons[j])
    && r.balloon == (if t.balloon == Some(t.icons[i].window) then None else t.balloon)
    && r.balloonUp == (r.balloon.Some? && t.balloonUp)
  }

  lemma {:induction false} DeleteMeans(t: Tray, i: nat)
    requires Inv(t) && i < |t.icons|
    ensures Deleted(t, i, Delete(t, i))
  {
    hide Keys, HideIcon;
    HideMeans(t, i);
    var h, r := HideIcon(t, i), Delete(t, i);
    forall j | 0 <= j < |t.icons| && j != i ensures r.icons[if j < i then j else j - 1] == h.icons[j] {
    }
    if t.icons[i].display == HIDDEN { HiddenSilent(t, i); }
  }

  /** A hidden icon has no balloon. */
  lemma {:induction false} HiddenSilent(t: Tray, i: nat)
    requires Inv(t) && i < |t.icons| && t.icons[i].display == HIDDEN
    ensures t.balloon != Some(t.icons[i].window)
  {
    assert !(t.balloon == Some(t.icons[i].window) && Speaking(t.icons, t.icons[i].window));
  }

  lemma {:induction false} NotifyDeleteMeans(t: Tray, q: Request)
    requires Inv(t)
    ensures forall i :: IsAt(t, i, q.owner, q.id) ==> Deleted(t, i, Step(t, NotifyDelete(q)))
    ensures Unlisted(t, q.owner, q.id) ==> Step(t, NotifyDelete(q)) == t
  {
    hide Delete, Deleted;
    forall i | IsAt(t, i, q.owner, q.id) ensures Deleted(t, i, Step(t, NotifyDelete(q))) {
      FindIs(t, i, q.owner, q.id);
      DeleteMeans(t, i);
    }
    if Unlisted(t, q.owner, q.id) { FindNone(t, q.owner, q.id); }
  }

  /** The owner's window of icon i is gone. */
  lemma {:induction false} OwnerGoneMeans(t: Tray, i: nat)
    requires Inv(t) && i < |t.icons|
    ensures Deleted(t, i, Step(t, OwnerGone(t.icons[i].window)))
  {
    hide Delete, Deleted;
    assert FindWindow(t.icons, t.icons[i].window) == i;
    DeleteMeans(t, i);
  }

  /** The first icon in list order that can have a balloon, if any. */
  ghost predicate NextIs(t: Tray, k: nat, r: Tray) {
    && k <= |t.icons| && (forall j :: 0 <= j < k ==> !HasBalloon(t, j)) && (k < |t.icons| ==> HasBalloon(t, k))
    && r.balloon == (if k < |t.icons| then Some(t.icons[k].window) else None)
  }

  lemma {:induction false} NextMeans(t: Tray, k: nat) returns (n: nat)
    requires k <= |t.icons| && t.balloon == None && forall j :: 0 <= j < k ==> !HasBalloon(t, j)
    ensures var r := NextBalloon(t, k);
      NextIs(t, n, r) && r == t.(balloon := r.balloon, timers := r.timers)
    decreases |t.icons| - k
  {
    if k == |t.icons| || CanShow(t, k) { n := k; } else { n := NextMeans(t, k + 1); }
  }

  /** A balloon comes up when its first timer fires: nothing else changes. */
  lemma {:induction false} CreateTimerMeans(t: Tray, w: nat)
    requires Inv(t) && (w, CreateTimer) in t.timers
    ensures t.balloon == Some(w) && !t.balloonUp
    ensures Step(t, TimerFires(w, CreateTimer)) == t.(balloonUp := true, timers := {(w, ShowTimer)})
  {
    TimerLive(t, w, CreateTimer);
  }

  /** When the second timer fires the text has been shown: it is cleared, and the next icon with a text follows. */
  lemma {:induction false} ShowTimerMeans(t: Tray, w: nat) returns (i: nat, n: nat)
    requires Inv(t) && (w, ShowTimer) in t.timers
    ensures i < |t.icons| && t.icons[i].window == w && t.balloon == Some(w)
    ensures var r := Step(t, TimerFires(w, ShowTimer));
      && r.icons == t.icons[i := t.icons[i].(info := [])] && r.shown == t.shown && SameSettings(t, r)
      && !r.balloonUp && NextIs(r, n, r)
  {
    hide Keys, Slots, Speaking, NextBalloon;
    TimerLive(t, w, ShowTimer);
    i := FindWindow(t.icons, w);
    var cleared := HideBalloon(t.(icons := t.icons[i := t.icons[i].(info := [])]));
    n := NextMeans(cleared, 0);
    var r := Step(t, TimerFires(w, ShowTimer));
    assert r == NextBalloon(cleared, 0);
    assert forall j :: 0 <= j < |r.icons| ==> (HasBalloon(r, j) <==> HasBalloon(cleared, j));
  }

  /** A new version changes that icon's version only. */
  lemma {:induction false} NotifyVersionMeans(t: Tray, q: Request)
    requires Inv(t)
    ensures forall i: nat :: IsAt(t, i, q.owner, q.id) ==>
      Step(t, NotifyVersion(q)) == t.(icons := t.icons[i := t.icons[i].(version := q.version)])
    ensures Unlisted(t, q.owner, q.id) ==> Step(t, NotifyVersion(q)) == t
  {
    hide Slots, Balloon;
    forall i: nat | IsAt(t, i, q.owner, q.id)
      ensures Step(t, NotifyVersion(q)) == t.(icons := t.icons[i := t.icons[i].(version := q.version)])
    {
      FindIs(t, i, q.owner, q.id);
    }
    if Unlisted(t, q.owner, q.id) { FindNone(t, q.owner, q.id); }
  }

  // ------------------------------------------------------- many icons in one message

  /** The same icons on other slots, but displayed alike and in the same order. */
  ghost predicate Reslotted(a: seq<Icon>, b: seq<Icon>) {
    && |a| == |b|
    && (forall j :: 0 <= j < |a| ==> b[j] == a[j].(display := b[j].display) && (b[j].display == HIDDEN <==> a[j].display == HIDDEN))
    && (forall j, k :: 0 <= j < |a| && 0 <= k < |a| ==> (b[j].display < b[k].display <==> a[j].display < a[k].display))
  }

  lemma {:induction false} DeleteReslots(t: Tray, i: nat)
    requires Inv(t) && i < |t.icons|
    ensures Reslotted(t.icons[..i] + t.icons[i + 1..], Delete(t, i).icons)
  {
    hide Delete, Balloon, Keys;
    DeleteMeans(t, i);
    var a, b, d := t.icons[..i] + t.icons[i + 1..], Delete(t, i).icons, t.icons[i].display;
    forall j | 0 <= j < |a|
      ensures b[j] == a[j].(display := if d != HIDDEN && a[j].display > d then a[j].display - 1 else a[j].display)
      ensures a[j].display >= HIDDEN && (d != HIDDEN ==> a[j].display != d)
    {
      var k := if j < i then j else j + 1;
      assert a[j] == t.icons[k];
    }
  }

  lemma {:induction false} ReslottedTwice(a: seq<Icon>, b: seq<Icon>, c: seq<Icon>)
    requires Reslotted(a, b) && Reslotted(b, c)
    ensures Reslotted(a, c)
  {
  }

  lemma {:induction false} ReslottedSelf(a: seq<Icon>)
    ensures Reslotted(a, a)
  {
  }

  /** A filter of the list by owner commutes with moving icons to other slots. */
  lemma {:induction false} OthersReslotted(a: seq<Icon>, b: seq<Icon>, owner: nat)
    requires Reslotted(a, b)
    ensures Reslotted(Others(a, owner), Others(b, owner))
  {
    var f := OthersAt(a, b, owner);
  }

  function Shifted(g: seq<nat>): (f: seq<nat>)
    ensures |f| == |g| && forall k :: 0 <= k < |g| ==> f[k] == g[k] + 1
  {
    seq(|g|, k requires 0 <= k < |g| => g[k] + 1)
  }

  /** The places in the list that the filter keeps, the same for both lists. */
  lemma {:induction false} OthersAt(a: seq<Icon>, b: seq<Icon>, owner: nat) returns (f: seq<nat>)
    requires |a| == |b| && forall j :: 0 <= j < |a| ==> b[j].owner == a[j].owner
    ensures |f| == |Others(a, owner)| == |Others(b, owner)|
    ensures forall k :: 0 <= k < |f| ==> f[k] < |a| && Others(a, owner)[k] == a[f[k]] && Others(b, owner)[k] == b[f[k]]
  {
    if a == [] {
      f := [];
    } else {
      var g := OthersAt(a[1..], b[1..], owner);
      f := Shifted(g);
      forall k | 0 <= k < |g| ensures a[1..][g[k]] == a[f[k]] && b[1..][g[k]] == b[f[k]] {
      }
      if a[0].owner != owner {
        var rest := f;
        f := [0] + rest;
        assert Others(a, owner) == [a[0]] + Others(a[1..], owner);
        assert Others(b, owner) == [b[0]] + Others(b[1..], owner);
        forall k | 0 <= k < |f|
          ensures f[k] < |a| && Others(a, owner)[k] == a[f[k]] && Others(b, owner)[k] == b[f[k]]
        {
          if k > 0 { assert f[k] == rest[k - 1]; }
        }
      }
    }
  }

  /** Cleaning up after an owner: the other icons stay, displayed as before and in the same order. */
  lemma {:induction false} CleanupMeans(t: Tray, k: nat, owner: nat)
    requires k <= |t.icons| && Inv(t) && forall i :: 0 <= i < k ==> t.icons[i].owner != owner
    ensures Reslotted(Others(t.icons, owner), Cleanup(t, k, owner).icons)
    decreases |t.icons| - k
  {
    hide Inv, Delete, Reslotted;
    if k == |t.icons| {
      NoneOwned(t.icons, owner);
      ReslottedSelf(t.icons);
    } else if t.icons[k].owner == owner {
      DeleteKeeps(t, k);
      DeleteReslots(t, k);
      var r, left := Delete(t, k), t.icons[..k] + t.icons[k + 1..];
      assert forall i :: 0 <= i < k ==> r.icons[i].owner == left[i].owner;
      CleanupMeans(r, k, owner);
      OthersReslotted(left, r.icons, owner);
      OthersDrop(t.icons, k, owner);
      ReslottedTwice(Others(t.icons, owner), Others(r.icons, owner), Cleanup(r, k, owner).icons);
    } else {
      CleanupMeans(t, k + 1, owner);
    }
  }

  lemma {:induction false} OwnerDestroyedMeans(t: Tray, owner: nat)
    requires Inv(t)
    ensures Reslotted(Others(t.icons, owner), Step(t, OwnerDestroyed(owner)).icons)
  {
    CleanupMeans(t, 0, owner);
  }

  /** Taking icon k out and putting it back. */
  ghost predicate Reseated(t: Tray, k: nat, r: Tray) {
    && k < |t.icons| == |r.icons| && SameSettings(t, r) && OneTimer(r)
    && (forall j :: 0 <= j < |t.icons| ==> r.icons[j] == t.icons[j].(display := r.icons[j].display))
    && r.icons[k].display != HIDDEN
    && Renewed(t, k, r)
  }

  lemma {:induction false} ReseatMeans(t: Tray, k: nat)
    requires Inv(t) && k < |t.icons| && !t.noItems
    ensures Reseated(t, k, ShowIcon(HideIcon(t, k), k))
  {
    hide Keys, HideIcon, ShowIcon;
    HideMeans(t, k);
    var h := HideIcon(t, k);
    ShowMeans(h, k);
    if t.icons[k].display == HIDDEN { HiddenSilent(t, k); }
  }

  /** Whose balloon is due after the icons from k on have been reseated. */
  lemma {:induction false} RefreshBalloon(t: Tray, k: nat)
    requires Inv(t) && k <= |t.icons| && !t.noItems
    ensures var r := Refresh(t, k);
      && SameSettings(t, r) && |r.icons| == |t.icons|
      && (forall j :: 0 <= j < |t.icons| ==> r.icons[j] == t.icons[j].(display := r.icons[j].display))
      && (t.balloon.Some? ==> r.balloon == t.balloon)
    decreases |t.icons| - k
  {
    hide Inv, HideIcon, ShowIcon;
    if k < |t.icons| {
      HideIconKeeps(t, k);
      ShowIconKeeps(HideIcon(t, k), k);
      ReseatMeans(t, k);
      BalloonStays(t, k);
      RefreshBalloon(ShowIcon(HideIcon(t, k), k), k + 1);
    }
  }

  lemma {:induction false} BalloonStays(t: Tray, k: nat)
    requires Inv(t) && k < |t.icons| && !t.noItems
    ensures t.balloon.Some? ==> ShowIcon(HideIcon(t, k), k).balloon == t.balloon
  {
    hide HideIcon, ShowIcon, Slots;
    ReseatMeans(t, k);
    var r := ShowIcon(HideIcon(t, k), k);
    if t.balloon == Some(t.icons[k].window) {
      assert Speaking(t.icons, t.icons[k].window);
      assert HasBalloon(r, k);
    }
  }

  /** A refresh displays every icon in list order, and a balloon that is due or up stays with its icon. */
  lemma {:induction false} RefreshMeans(t: Tray)
    requires Inv(t) && !t.noItems
    ensures var r := Step(t, RefreshAll);
      && r.shown == |t.icons| == |r.icons| && (forall j :: 0 <= j < |t.icons| ==> r.icons[j] == t.icons[j].(display := j))
      && (t.balloon.Some? ==> r.balloon == t.balloon)
  {
    hide Inv;
    RefreshOrder(t);
    RefreshBalloon(t, 0);
  }
}
