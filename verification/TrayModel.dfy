/**
 The notification area without docking: icons with display slots, and the balloon with
 its two timers. Icons are known by their adaptor window, which is never used twice.
 */
module TrayModel {
  import opened WideText

  const HIDDEN := -1
  const MIN_TIMEOUT: nat := 10000
  const MAX_TIMEOUT: nat := 30000

  datatype Icon = Icon(window: nat, owner: nat, id: nat, version: nat, hide: bool, info: Text, timeout: nat, display: int)

  /** A balloon waits to be created, and once it is up it waits to be taken down. */
  datatype Timer = CreateTimer | ShowTimer

  /** hideMask and hide are the NIS_HIDDEN bits of the state mask and of the state. */
  datatype Request = Request(owner: nat, id: nat, setState: bool, hideMask: bool, hide: bool,
                             setInfo: bool, info: Text, timeout: nat, version: nat)

  datatype Tray = Tray(icons: seq<Icon>, shown: nat, balloon: Option<nat>, balloonUp: bool, timers: set<(nat, Timer)>,
                       taskbar: bool, standalone: bool, noItems: bool, nextWindow: nat)

  // ------------------------------------------------------------------- the operations

  function Find(icons: seq<Icon>, owner: nat, id: nat): (i: nat)
    ensures i <= |icons|
    ensures i < |icons| ==> icons[i].owner == owner && icons[i].id == id
    ensures forall k :: 0 <= k < i ==> !(icons[k].owner == owner && icons[k].id == id)
  {
    if icons == [] || (icons[0].owner == owner && icons[0].id == id) then 0 else 1 + Find(icons[1..], owner, id)
  }

  function FindWindow(icons: seq<Icon>, window: nat): (i: nat)
    ensures i <= |icons|
    ensures i < |icons| ==> icons[i].window == window
    ensures forall k :: 0 <= k < i ==> icons[k].window != window
  {
    if icons == [] || icons[0].window == window then 0 else 1 + FindWindow(icons[1..], window)
  }

  /** The icon leaves its slot and the icons in later slots move down by one. */
  function Vacate(icons: seq<Icon>, i: nat): (r: seq<Icon>)
    requires i < |icons|
    ensures |r| == |icons|
  {
    seq(|icons|, j requires 0 <= j < |icons| =>
      if j == i then icons[j].(display := HIDDEN)
      else if icons[j].display < icons[i].display then icons[j]
      else icons[j].(display := icons[j].display - 1))
  }

  function AddSlot(t: Tray, i: nat): (r: Tray)
    requires i < |t.icons|
    ensures |r.icons| == |t.icons|
  {
    if t.icons[i].display != HIDDEN then t else
    t.(icons := t.icons[i := t.icons[i].(display := t.shown)], shown := t.shown + 1)
  }

  function RemoveSlot(t: Tray, i: nat): (r: Tray)
    requires i < |t.icons|
    ensures |r.icons| == |t.icons|
  {
    if t.icons[i].display == HIDDEN || t.shown == 0 then t else
    t.(icons := Vacate(t.icons, i), shown := t.shown - 1)
  }

  predicate CanShow(t: Tray, i: nat)
    requires i < |t.icons|
  {
    (t.taskbar || t.standalone) && t.icons[i].display != HIDDEN && t.icons[i].info != []
  }

  function ShowBalloon(t: Tray, i: nat): (r: Tray)
    requires i < |t.icons|
    ensures r.icons == t.icons
  {
    if !CanShow(t, i) then t else
    t.(balloon := Some(t.icons[i].window), timers := t.timers + {(t.icons[i].window, CreateTimer)})
  }

  function HideBalloon(t: Tray): (r: Tray)
    ensures r.icons == t.icons
  {
    if t.balloon.None? then t else
    t.(balloon := None, balloonUp := false,
       timers := t.timers - {(t.balloon.value, if t.balloonUp then ShowTimer else CreateTimer)})
  }

  function UpdateBalloon(t: Tray, i: nat): (r: Tray)
    requires i < |t.icons|
    ensures r.icons == t.icons
  {
    if t.balloon == Some(t.icons[i].window) then ShowBalloon(HideBalloon(t), i)
    else if t.balloon.None? then ShowBalloon(t, i)
    else t
  }

  /** The first icon from k on that has a balloon to show gets it. */
  function NextBalloon(t: Tray, k: nat): (r: Tray)
    requires k <= |t.icons|
    ensures r.icons == t.icons
    decreases |t.icons| - k
  {
    if k == |t.icons| then t else if CanShow(t, k) then ShowBalloon(t, k) else NextBalloon(t, k + 1)
  }

  function ShowIcon(t: Tray, i: nat): (r: Tray)
    requires i < |t.icons|
    ensures |r.icons| == |t.icons|
  {
    if t.noItems || t.icons[i].display != HIDDEN then t else UpdateBalloon(AddSlot(t, i), i)
  }

  function HideIcon(t: Tray, i: nat): (r: Tray)
    requires i < |t.icons|
    ensures |r.icons| == |t.icons|
  {
    if t.icons[i].display == HIDDEN then t else UpdateBalloon(RemoveSlot(t, i), i)
  }

  function Clamp(timeout: nat): nat {
    if timeout > MAX_TIMEOUT then MAX_TIMEOUT else if timeout < MIN_TIMEOUT then MIN_TIMEOUT else timeout
  }

  function Requested(icon: Icon, q: Request): Icon {
    icon.(hide := if q.setState && q.hideMask then q.hide else icon.hide,
          info := if q.setInfo then q.info else icon.info,
          timeout := if q.setInfo then Clamp(q.timeout) else icon.timeout)
  }

  function Modify(t: Tray, i: nat, q: Request): (r: Tray)
    requires i < |t.icons|
    ensures |r.icons| == |t.icons|
  {
    var asked := t.(icons := t.icons[i := Requested(t.icons[i], q)]);
    var told := if q.setInfo then UpdateBalloon(asked, i) else asked;
    if told.icons[i].hide then HideIcon(told, i) else ShowIcon(told, i)
  }

  function Listed(t: Tray, q: Request): Tray {
    t.(icons := t.icons + [Icon(t.nextWindow, q.owner, q.id, 0, false, [], 0, HIDDEN)], nextWindow := t.nextWindow + 1)
  }

  function Add(t: Tray, q: Request): Tray {
    if Find(t.icons, q.owner, q.id) < |t.icons| then t else Modify(Listed(t, q), |t.icons|, q)
  }

  function Delete(t: Tray, i: nat): (r: Tray)
    requires i < |t.icons|
    ensures |r.icons| == |t.icons| - 1
  {
    var hidden := HideIcon(t, i);
    hidden.(icons := hidden.icons[..i] + hidden.icons[i + 1..])
  }

  /** Every icon of the owner from position k on is deleted. */
  function Cleanup(t: Tray, k: nat, owner: nat): Tray
    requires k <= |t.icons|
    decreases |t.icons| - k
  {
    if k == |t.icons| then t
    else if t.icons[k].owner == owner then Cleanup(Delete(t, k), k, owner)
    else Cleanup(t, k + 1, owner)
  }

  /** Every icon from position k on is taken out and put back. */
  function Refresh(t: Tray, k: nat): (r: Tray)
    requires k <= |t.icons|
    ensures |r.icons| == |t.icons|
    decreases |t.icons| - k
  {
    if k == |t.icons| then t else Refresh(ShowIcon(HideIcon(t, k), k), k + 1)
  }

  /** What remains of a refresh leads to this state. */
  ghost predicate RefreshLeads(t: Tray, k: nat, end: Tray) {
    k <= |t.icons| && Refresh(t, k) == end
  }

  lemma {:induction false} RefreshStep(t: Tray, k: nat, end: Tray)
    requires k < |t.icons| && RefreshLeads(t, k, end)
    ensures RefreshLeads(ShowIcon(HideIcon(t, k), k), k + 1, end)
  {
  }

  /** BALLOON_CREATE_TIMER fires: the balloon window comes up. */
  function CreateBalloon(t: Tray, i: nat): Tray
    requires i < |t.icons|
  {
    var w := t.icons[i].window;
    t.(balloon := Some(w), balloonUp := true, timers := t.timers - {(w, CreateTimer)} + {(w, ShowTimer)})
  }

  /** BALLOON_SHOW_TIMER fires: the text has been shown, the next balloon follows. */
  function EndBalloon(t: Tray, i: nat): Tray
    requires i < |t.icons|
  {
    NextBalloon(HideBalloon(t.(icons := t.icons[i := t.icons[i].(info := [])])), 0)
  }

  datatype Event =
    | NotifyAdd(request: Request) | NotifyModify(request: Request)
    | NotifyDelete(request: Request) | NotifyVersion(request: Request)
    | OwnerDestroyed(owner: nat)
    | OwnerGone(window: nat)
    | TimerFires(window: nat, timer: Timer)
    | CloseTray
    | RefreshAll

  /** One message; a timer only fires while it is set. */
  function Step(t: Tray, e: Event): Tray {
    match e
    case NotifyAdd(q) => Add(t, q)
    case NotifyModify(q) => var i := Find(t.icons, q.owner, q.id); if i < |t.icons| then Modify(t, i, q) else t
    case NotifyDelete(q) => var i := Find(t.icons, q.owner, q.id); if i < |t.icons| then Delete(t, i) else t
    case NotifyVersion(q) =>
      var i := Find(t.icons, q.owner, q.id);
      if i < |t.icons| then t.(icons := t.icons[i := t.icons[i].(version := q.version)]) else t
    case OwnerDestroyed(owner) => Cleanup(t, 0, owner)
    case OwnerGone(w) => var i := FindWindow(t.icons, w); if i < |t.icons| then Delete(t, i) else t
    case TimerFires(w, timer) =>
      var i := FindWindow(t.icons, w);
      if (w, timer) !in t.timers || i == |t.icons| then t
      else if timer == CreateTimer then CreateBalloon(t, i) else EndBalloon(t, i)
    case CloseTray => HideBalloon(t).(standalone := false)
    case RefreshAll => Refresh(t, 0)
  }

  function Run(t: Tray, es: seq<Event>): Tray
    decreases |es|
  {
    if es == [] then t else Run(Step(t, es[0]), es[1..])
  }

  function Initial(taskbar: bool, standalone: bool, noItems: bool): Tray {
    Tray([], 0, None, false, {}, taskbar, standalone, noItems, 1)
  }

  // ------------------------------------------------------------------ the invariants

  ghost predicate Taken(icons: seq<Icon>, k: int) {
    exists i :: 0 <= i < |icons| && icons[i].display == k
  }

  /** The displayed icons fill the slots 0 to n, one icon each; the others are at -1. */
  ghost predicate Slots(icons: seq<Icon>, n: nat) {
    && (forall i :: 0 <= i < |icons| ==> HIDDEN <= icons[i].display < n)
    && (forall i, j :: 0 <= i < j < |icons| && icons[i].display == icons[j].display ==> icons[i].display == HIDDEN)
    && (forall k :: 0 <= k < n ==> Taken(icons, k))
  }

  /** No two icons share owner and id, or a window. */
  ghost predicate Keys(icons: seq<Icon>, nextWindow: nat) {
    && (forall i :: 0 <= i < |icons| ==> icons[i].window < nextWindow)
    && (forall i, j :: 0 <= i < j < |icons| ==> !(icons[i].owner == icons[j].owner && icons[i].id == icons[j].id))
    && (forall i, j :: 0 <= i < j < |icons| ==> icons[i].window != icons[j].window)
  }

  /** The icon with this window is listed, displayed and has a text to show. */
  ghost predicate Speaking(icons: seq<Icon>, w: nat) {
    exists i :: 0 <= i < |icons| && icons[i].window == w && icons[i].display != HIDDEN && icons[i].info != []
  }

  /** Exactly one timer runs on the icon whose balloon is due or up, and none otherwise. */
  predicate OneTimer(t: Tray) {
    if t.balloon.None? then t.timers == {} && !t.balloonUp
    else (t.taskbar || t.standalone) && t.timers == {(t.balloon.value, if t.balloonUp then ShowTimer else CreateTimer)}
  }

  ghost predicate Balloon(t: Tray) {
    OneTimer(t) && (t.balloon.Some? ==> Speaking(t.icons, t.balloon.value))
  }

  ghost predicate Inv(t: Tray) {
    Keys(t.icons, t.nextWindow) && Slots(t.icons, t.shown) && Balloon(t)
  }

  // ------------------------------------------------------------------ display slots

  lemma {:induction false} AddSlotKeeps(t: Tray, i: nat)
    requires i < |t.icons| && Slots(t.icons, t.shown)
    ensures Slots(AddSlot(t, i).icons, AddSlot(t, i).shown)
  {
    if t.icons[i].display == HIDDEN {
      var icons := AddSlot(t, i).icons;
      forall k | 0 <= k < t.shown + 1 ensures Taken(icons, k) {
        if k < t.shown {
          assert Taken(t.icons, k);
          var j :| 0 <= j < |t.icons| && t.icons[j].display == k;
          assert icons[j].display == k;
        } else {
          assert icons[i].display == k;
        }
      }
    }
  }

  lemma {:induction false} VacateKeeps(icons: seq<Icon>, i: nat, n: nat)
    requires i < |icons| && Slots(icons, n) && icons[i].display != HIDDEN
    ensures n > 0 && Slots(Vacate(icons, i), n - 1)
  {
    var d, r := icons[i].display, Vacate(icons, i);
    forall a, b | 0 <= a < b < |r| && r[a].display == r[b].display ensures r[a].display == HIDDEN {
    }
    forall k | 0 <= k < n - 1 ensures Taken(r, k) {
      var was := if k < d then k else k + 1;
      assert Taken(icons, was);
      var j :| 0 <= j < |icons| && icons[j].display == was;
      assert r[j].display == k;
    }
  }

  /** Taking an icon out keeps the order of all the others. */
  lemma {:induction false} VacateOrder(icons: seq<Icon>, i: nat, n: nat, a: nat, b: nat)
    requires i < |icons| && Slots(icons, n) && icons[i].display != HIDDEN
    requires a < |icons| && b < |icons| && a != i && b != i
    ensures var r := Vacate(icons, i);
      && (r[a].display == HIDDEN <==> icons[a].display == HIDDEN)
      && (r[a].display < r[b].display <==> icons[a].display < icons[b].display)
  {
    var d := icons[i].display;
    assert icons[a].display != d && icons[b].display != d;
  }

  lemma {:induction false} DropHidden(icons: seq<Icon>, i: nat, n: nat)
    requires i < |icons| && Slots(icons, n) && icons[i].display == HIDDEN
    ensures Slots(icons[..i] + icons[i + 1..], n)
  {
    var r := icons[..i] + icons[i + 1..];
    forall k | 0 <= k < n ensures Taken(r, k) {
      assert Taken(icons, k);
      var j :| 0 <= j < |icons| && icons[j].display == k;
      assert r[if j < i then j else j - 1] == icons[j];
    }
  }

  lemma {:induction false} DropKeys(icons: seq<Icon>, i: nat, nextWindow: nat)
    requires i < |icons| && Keys(icons, nextWindow)
    ensures Keys(icons[..i] + icons[i + 1..], nextWindow)
  {
  }

  /** Two lists that differ only in slots and requests have the same owners, ids and windows. */
  ghost predicate SameKeys(a: seq<Icon>, b: seq<Icon>) {
    |a| == |b| && forall i :: 0 <= i < |a| ==> a[i].window == b[i].window && a[i].owner == b[i].owner && a[i].id == b[i].id
  }

  lemma {:induction false} SameKeysKeep(a: seq<Icon>, b: seq<Icon>, nextWindow: nat)
    requires SameKeys(a, b) && Keys(a, nextWindow)
    ensures Keys(b, nextWindow)
  {
  }

  // ----------------------------------------------------------------------- the balloon

  lemma {:induction false} SpeakingAt(icons: seq<Icon>, i: nat)
    requires i < |icons| && icons[i].display != HIDDEN && icons[i].info != []
    ensures Speaking(icons, icons[i].window)
  {
  }

  lemma {:induction false} SpeakingStays(a: seq<Icon>, b: seq<Icon>, w: nat)
    requires Speaking(a, w) && |a| <= |b|
    requires forall i :: 0 <= i < |a| && a[i].window == w ==>
      b[i].window == w && (b[i].display == HIDDEN ==> a[i].display == HIDDEN) && (b[i].info == [] ==> a[i].info == [])
    ensures Speaking(b, w)
  {
    var i :| 0 <= i < |a| && a[i].window == w && a[i].display != HIDDEN && a[i].info != [];
    assert b[i].window == w;
  }

  lemma {:induction false} HideBalloonKeeps(t: Tray)
    requires OneTimer(t)
    ensures var r := HideBalloon(t); Balloon(r) && r.balloon == None && r.timers == {} && r.shown == t.shown && r.nextWindow == t.nextWindow
  {
  }

  lemma {:induction false} ShowBalloonKeeps(t: Tray, i: nat)
    requires i < |t.icons| && OneTimer(t) && t.balloon == None
    ensures Balloon(ShowBalloon(t, i))
  {
    if CanShow(t, i) { SpeakingAt(t.icons, i); }
  }

  /** After an icon has changed, updating its balloon settles the machine. */
  lemma {:induction false} UpdateBalloonKeeps(t: Tray, i: nat)
    requires i < |t.icons| && OneTimer(t)
    requires t.balloon.Some? && t.balloon.value != t.icons[i].window ==> Speaking(t.icons, t.balloon.value)
    ensures Balloon(UpdateBalloon(t, i))
    ensures var r := UpdateBalloon(t, i); r.shown == t.shown && r.nextWindow == t.nextWindow
  {
    if t.balloon == Some(t.icons[i].window) {
      HideBalloonKeeps(t);
      ShowBalloonKeeps(HideBalloon(t), i);
    } else if t.balloon.None? {
      ShowBalloonKeeps(t, i);
    }
  }

  lemma {:induction false} NextBalloonKeeps(t: Tray, k: nat)
    requires k <= |t.icons| && OneTimer(t) && t.balloon == None
    ensures var r := NextBalloon(t, k); Balloon(r) && r.shown == t.shown && r.nextWindow == t.nextWindow
    decreases |t.icons| - k
  {
    if k < |t.icons| {
      if CanShow(t, k) { ShowBalloonKeeps(t, k); } else { NextBalloonKeeps(t, k + 1); }
    }
  }

  // -------------------------------------------------------------------- the operations

  lemma {:induction false} ShowIconKeeps(t: Tray, i: nat)
    requires i < |t.icons| && Inv(t)
    ensures Inv(ShowIcon(t, i)) && SameKeys(t.icons, ShowIcon(t, i).icons)
  {
    if !t.noItems && t.icons[i].display == HIDDEN {
      var added := AddSlot(t, i);
      AddSlotKeeps(t, i);
      if t.balloon.Some? { SpeakingStays(t.icons, added.icons, t.balloon.value); }
      UpdateBalloonKeeps(added, i);
      SameKeysKeep(t.icons, added.icons, t.nextWindow);
    }
  }

  /** With the icon out of its slot, everything but its balloon is in order. */
  lemma {:induction false} RemovedKeeps(t: Tray, i: nat)
    requires i < |t.icons| && Inv(t) && t.icons[i].display != HIDDEN
    ensures var r := RemoveSlot(t, i);
      && Keys(r.icons, r.nextWindow) && Slots(r.icons, r.shown) && OneTimer(r) && SameKeys(t.icons, r.icons)
      && (r.balloon.Some? && r.balloon.value != r.icons[i].window ==> Speaking(r.icons, r.balloon.value))
      && r.icons[i].display == HIDDEN
  {
    hide Speaking, Keys, Slots, Vacate;
    VacateKeeps(t.icons, i, t.shown);
    VacateSame(t.icons, i);
    if t.balloon.Some? && t.balloon.value != t.icons[i].window { VacateSpeaking(t.icons, i, t.shown, t.balloon.value); }
    SameKeysKeep(t.icons, RemoveSlot(t, i).icons, t.nextWindow);
  }

  lemma {:induction false} VacateSame(icons: seq<Icon>, i: nat)
    requires i < |icons|
    ensures SameKeys(icons, Vacate(icons, i)) && Vacate(icons, i)[i].display == HIDDEN
  {
  }

  lemma {:induction false} HideIconKeeps(t: Tray, i: nat)
    requires i < |t.icons| && Inv(t)
    ensures Inv(HideIcon(t, i)) && SameKeys(t.icons, HideIcon(t, i).icons) && HideIcon(t, i).icons[i].display == HIDDEN
  {
    hide Keys, Slots, Balloon, RemoveSlot, UpdateBalloon;
    if t.icons[i].display != HIDDEN {
      RemovedKeeps(t, i);
      UpdateBalloonKeeps(RemoveSlot(t, i), i);
    }
  }

  lemma {:induction false} VacateSpeaking(icons: seq<Icon>, i: nat, n: nat, w: nat)
    requires i < |icons| && Slots(icons, n) && icons[i].display != HIDDEN && icons[i].window != w && Speaking(icons, w)
    ensures Speaking(Vacate(icons, i), w)
  {
    var j :| 0 <= j < |icons| && icons[j].window == w && icons[j].display != HIDDEN && icons[j].info != [];
    VacateOrder(icons, i, n, j, j);
    assert Vacate(icons, i)[j].window == w;
  }

  /** Everything but the balloon of one icon is in order. */
  ghost predicate AllBut(t: Tray, i: nat)
    requires i < |t.icons|
  {
    && Keys(t.icons, t.nextWindow) && Slots(t.icons, t.shown) && OneTimer(t)
    && (t.balloon.Some? && t.balloon.value != t.icons[i].window ==> Speaking(t.icons, t.balloon.value))
  }

  lemma {:induction false} RequestKeeps(t: Tray, i: nat, q: Request)
    requires i < |t.icons| && Inv(t)
    ensures var asked := t.(icons := t.icons[i := Requested(t.icons[i], q)]);
      AllBut(asked, i) && SameKeys(t.icons, asked.icons) && (!q.setInfo ==> Inv(asked))
  {
    var asked := t.(icons := t.icons[i := Requested(t.icons[i], q)]);
    SameKeysKeep(t.icons, asked.icons, t.nextWindow);
    forall k | 0 <= k < t.shown ensures Taken(asked.icons, k) {
      assert Taken(t.icons, k);
      var j :| 0 <= j < |t.icons| && t.icons[j].display == k;
      assert asked.icons[j].display == k;
    }
    if t.balloon.Some? && (!q.setInfo || t.balloon.value != t.icons[i].window) {
      SpeakingStays(t.icons, asked.icons, t.balloon.value);
    }
  }

  lemma {:induction false} ModifyKeeps(t: Tray, i: nat, q: Request)
    requires i < |t.icons| && Inv(t)
    ensures Inv(Modify(t, i, q)) && SameKeys(t.icons, Modify(t, i, q).icons)
  {
    RequestKeeps(t, i, q);
    var asked := t.(icons := t.icons[i := Requested(t.icons[i], q)]);
    var told := if q.setInfo then UpdateBalloon(asked, i) else asked;
    if q.setInfo { UpdateBalloonKeeps(asked, i); }
    if told.icons[i].hide { HideIconKeeps(told, i); } else { ShowIconKeeps(told, i); }
  }

  lemma {:induction false} AppendHidden(icons: seq<Icon>, icon: Icon, n: nat)
    requires Slots(icons, n) && icon.display == HIDDEN
    ensures Slots(icons + [icon], n)
  {
    var r := icons + [icon];
    forall k | 0 <= k < n ensures Taken(r, k) {
      assert Taken(icons, k);
      var j :| 0 <= j < |icons| && icons[j].display == k;
      assert r[j].display == k;
    }
  }

  lemma {:induction false} ListedKeeps(t: Tray, q: Request)
    requires Inv(t) && Find(t.icons, q.owner, q.id) == |t.icons|
    ensures Inv(Listed(t, q))
  {
    hide Slots, Speaking;
    var r := Listed(t, q);
    AppendHidden(t.icons, r.icons[|t.icons|], t.shown);
    if t.balloon.Some? { SpeakingStays(t.icons, r.icons, t.balloon.value); }
  }

  lemma {:induction false} AddKeeps(t: Tray, q: Request)
    requires Inv(t)
    ensures Inv(Add(t, q))
  {
    if Find(t.icons, q.owner, q.id) == |t.icons| {
      ListedKeeps(t, q);
      ModifyKeeps(Listed(t, q), |t.icons|, q);
    }
  }

  /** Deleting an icon never leaves a timer or the balloon pointing at it. */
  lemma {:induction false} DeleteKeeps(t: Tray, i: nat)
    requires i < |t.icons| && Inv(t)
    ensures var r := Delete(t, i);
      && Inv(r) && SameKeys(t.icons[..i] + t.icons[i + 1..], r.icons)
      && r.balloon != Some(t.icons[i].window) && forall x :: x in r.timers ==> x.0 != t.icons[i].window
  {
    hide HideIcon, Slots, Keys, Speaking;
    HideIconKeeps(t, i);
    var h := HideIcon(t, i);
    DropHidden(h.icons, i, h.shown);
    DropKeys(h.icons, i, h.nextWindow);
    if h.balloon.Some? { DropSpeaking(h.icons, i, h.nextWindow, h.balloon.value); }
  }

  lemma {:induction false} DropSpeaking(icons: seq<Icon>, i: nat, nextWindow: nat, w: nat)
    requires i < |icons| && Keys(icons, nextWindow) && icons[i].display == HIDDEN && Speaking(icons, w)
    ensures icons[i].window != w && Speaking(icons[..i] + icons[i + 1..], w)
  {
    var j :| 0 <= j < |icons| && icons[j].window == w && icons[j].display != HIDDEN && icons[j].info != [];
    assert (icons[..i] + icons[i + 1..])[if j < i then j else j - 1] == icons[j];
  }

  /** The icons of other owners, in list order. */
  function Others(icons: seq<Icon>, owner: nat): seq<Icon> {
    if icons == [] then [] else if icons[0].owner == owner then Others(icons[1..], owner)
    else [icons[0]] + Others(icons[1..], owner)
  }

  lemma {:induction false} OthersConcat(a: seq<Icon>, b: seq<Icon>, owner: nat)
    ensures Others(a + b, owner) == Others(a, owner) + Others(b, owner)
  {
    if a == [] {
      assert a + b == b;
    } else {
      assert (a + b)[1..] == a[1..] + b;
      OthersConcat(a[1..], b, owner);
    }
  }

  lemma {:induction false} OthersSameKeys(a: seq<Icon>, b: seq<Icon>, owner: nat)
    requires SameKeys(a, b)
    ensures SameKeys(Others(a, owner), Others(b, owner))
  {
    if a != [] { OthersSameKeys(a[1..], b[1..], owner); }
  }

  lemma {:induction false} NoneOwned(icons: seq<Icon>, owner: nat)
    requires forall i :: 0 <= i < |icons| ==> icons[i].owner != owner
    ensures Others(icons, owner) == icons
  {
    if icons != [] { NoneOwned(icons[1..], owner); }
  }

  /** Cleaning up after an owner removes exactly its icons and keeps the others in order. */
  lemma {:induction false} CleanupIs(t: Tray, k: nat, owner: nat)
    requires k <= |t.icons| && Inv(t) && forall i :: 0 <= i < k ==> t.icons[i].owner != owner
    ensures SameKeys(Others(t.icons, owner), Cleanup(t, k, owner).icons)
    decreases |t.icons| - k
  {
    hide Inv, Delete;
    if k == |t.icons| {
      NoneOwned(t.icons, owner);
    } else if t.icons[k].owner == owner {
      DeleteKeeps(t, k);
      var r := Delete(t, k);
      assert forall i :: 0 <= i < k ==> r.icons[i].owner == (t.icons[..k] + t.icons[k + 1..])[i].owner;
      CleanupIs(r, k, owner);
      OthersSameKeys(t.icons[..k] + t.icons[k + 1..], r.icons, owner);
      OthersDrop(t.icons, k, owner);
    } else {
      CleanupIs(t, k + 1, owner);
    }
  }

  lemma {:induction false} OthersDrop(icons: seq<Icon>, k: nat, owner: nat)
    requires k < |icons| && icons[k].owner == owner
    ensures Others(icons, owner) == Others(icons[..k] + icons[k + 1..], owner)
  {
    OthersConcat(icons[..k], icons[k..], owner);
    OthersConcat(icons[..k], icons[k + 1..], owner);
    assert icons == icons[..k] + icons[k..];
    assert icons[k..][1..] == icons[k + 1..];
  }

  lemma {:induction false} CleanupKeeps(t: Tray, k: nat, owner: nat)
    requires k <= |t.icons| && Inv(t)
    ensures Inv(Cleanup(t, k, owner))
    decreases |t.icons| - k
  {
    if k < |t.icons| {
      if t.icons[k].owner == owner {
        DeleteKeeps(t, k);
        CleanupKeeps(Delete(t, k), k, owner);
      } else {
        CleanupKeeps(t, k + 1, owner);
      }
    }
  }

  lemma {:induction false} RefreshKeeps(t: Tray, k: nat)
    requires k <= |t.icons| && Inv(t)
    ensures Inv(Refresh(t, k))
    decreases |t.icons| - k
  {
    hide Inv, HideIcon, ShowIcon;
    if k < |t.icons| {
      HideIconKeeps(t, k);
      ShowIconKeeps(HideIcon(t, k), k);
      RefreshKeeps(ShowIcon(HideIcon(t, k), k), k + 1);
    }
  }

  /** The first k icons of the list hold the last k slots, in list order. */
  ghost predicate Lined(t: Tray, k: nat) {
    k <= |t.icons| && k <= t.shown && forall j :: 0 <= j < k ==> t.icons[j].display == t.shown - k + j
  }

  lemma {:induction false} LineUp(t: Tray, k: nat)
    requires k < |t.icons| && Inv(t) && !t.noItems && Lined(t, k)
    ensures Lined(ShowIcon(HideIcon(t, k), k), k + 1) && !ShowIcon(HideIcon(t, k), k).noItems
  {
    HideIconKeeps(t, k);
    var h := HideIcon(t, k);
    if t.icons[k].display != HIDDEN {
      VacateKeeps(t.icons, k, t.shown);
      UpdateBalloonSlots(RemoveSlot(t, k), k);
      var j := k;
      while j > 0
        invariant 0 <= j <= k && t.icons[k].display < t.shown - k + j
      {
        j := j - 1;
        assert t.icons[j].display != t.icons[k].display;
      }
    }
    UpdateBalloonSlots(AddSlot(h, k), k);
  }

  lemma {:induction false} UpdateBalloonSlots(t: Tray, i: nat)
    requires i < |t.icons|
    ensures var r := UpdateBalloon(t, i); r.shown == t.shown && r.noItems == t.noItems
  {
  }

  lemma {:induction false} RefreshLines(t: Tray, k: nat)
    requires k <= |t.icons| && Inv(t) && !t.noItems && Lined(t, k)
    ensures Lined(Refresh(t, k), |t.icons|)
    decreases |t.icons| - k
  {
    if k < |t.icons| {
      LineUp(t, k);
      HideIconKeeps(t, k);
      ShowIconKeeps(HideIcon(t, k), k);
      RefreshLines(ShowIcon(HideIcon(t, k), k), k + 1);
    }
  }

  /** A refresh shows every icon, also the hidden ones, in list order. */
  lemma {:induction false} RefreshOrder(t: Tray)
    requires Inv(t) && !t.noItems
    ensures var r := Refresh(t, 0); r.shown == |t.icons| && forall j :: 0 <= j < |t.icons| ==> r.icons[j].display == j
  {
    RefreshLines(t, 0);
    RefreshKeeps(t, 0);
    var r := Refresh(t, 0);
    if r.shown > 0 {
      assert Taken(r.icons, 0);
      var j :| 0 <= j < |r.icons| && r.icons[j].display == 0;
      assert r.shown - |r.icons| + j == 0;
    }
  }

  /** A timer that is set belongs to a listed icon, the one whose balloon it is. */
  lemma {:induction false} TimerLive(t: Tray, w: nat, timer: Timer)
    requires Inv(t) && (w, timer) in t.timers
    ensures FindWindow(t.icons, w) < |t.icons| && t.balloon == Some(w) && (timer == ShowTimer <==> t.balloonUp)
  {
    assert Speaking(t.icons, w);
  }

  lemma {:induction false} TimerKeeps(t: Tray, w: nat, timer: Timer)
    requires Inv(t)
    ensures Inv(Step(t, TimerFires(w, timer)))
  {
    if (w, timer) in t.timers {
      TimerLive(t, w, timer);
      var i := FindWindow(t.icons, w);
      if timer == CreateTimer {
        var r := CreateBalloon(t, i);
        assert r.timers == {(w, ShowTimer)};
      } else {
        ClearedKeeps(t, i);
        var cleared := t.(icons := t.icons[i := t.icons[i].(info := [])]);
        HideBalloonKeeps(cleared);
        NextBalloonKeeps(HideBalloon(cleared), 0);
      }
    }
  }

  lemma {:induction false} ClearedKeeps(t: Tray, i: nat)
    requires Inv(t) && i < |t.icons|
    ensures var icons := t.icons[i := t.icons[i].(info := [])]; Keys(icons, t.nextWindow) && Slots(icons, t.shown)
  {
    var icons := t.icons[i := t.icons[i].(info := [])];
    SameKeysKeep(t.icons, icons, t.nextWindow);
    forall k | 0 <= k < t.shown ensures Taken(icons, k) {
      assert Taken(t.icons, k);
      var j :| 0 <= j < |t.icons| && t.icons[j].display == k;
      assert icons[j].display == k;
    }
  }

  lemma {:induction false} VersionKeeps(t: Tray, i: nat, version: nat)
    requires Inv(t) && i < |t.icons|
    ensures Inv(t.(icons := t.icons[i := t.icons[i].(version := version)]))
  {
    var icons := t.icons[i := t.icons[i].(version := version)];
    SameKeysKeep(t.icons, icons, t.nextWindow);
    forall k | 0 <= k < t.shown ensures Taken(icons, k) {
      assert Taken(t.icons, k);
      var j :| 0 <= j < |t.icons| && t.icons[j].display == k;
      assert icons[j].display == k;
    }
    if t.balloon.Some? { SpeakingStays(t.icons, icons, t.balloon.value); }
  }

  lemma {:induction false} CloseKeeps(t: Tray)
    requires Inv(t)
    ensures Inv(Step(t, CloseTray))
  {
    HideBalloonKeeps(t);
  }

  /** Every message keeps slots, keys and balloon in order. */
  lemma {:induction false} StepKeeps(t: Tray, e: Event)
    requires Inv(t)
    ensures Inv(Step(t, e))
  {
    hide Inv, Add, Modify, Delete, Cleanup, Refresh;
    match e
    case NotifyAdd(q) => AddKeeps(t, q);
    case NotifyModify(q) =>
      var i := Find(t.icons, q.owner, q.id);
      if i < |t.icons| { ModifyKeeps(t, i, q); }
    case NotifyDelete(q) =>
      var i := Find(t.icons, q.owner, q.id);
      if i < |t.icons| { DeleteKeeps(t, i); }
    case NotifyVersion(q) =>
      var i := Find(t.icons, q.owner, q.id);
      if i < |t.icons| { VersionKeeps(t, i, q.version); }
    case OwnerDestroyed(owner) => CleanupKeeps(t, 0, owner);
    case OwnerGone(w) =>
      var i := FindWindow(t.icons, w);
      if i < |t.icons| { DeleteKeeps(t, i); }
    case TimerFires(w, timer) => TimerKeeps(t, w, timer);
    case CloseTray => CloseKeeps(t);
    case RefreshAll => RefreshKeeps(t, 0);
  }

  lemma {:induction false} RunKeeps(t: Tray, es: seq<Event>)
    requires Inv(t)
    ensures Inv(Run(t, es))
    decreases |es|
  {
    if es != [] {
      StepKeeps(t, es[0]);
      RunKeeps(Step(t, es[0]), es[1..]);
    }
  }

  /** From the start, whatever messages arrive, the tray is in order. */
  lemma {:induction false} EveryRun(taskbar: bool, standalone: bool, noItems: bool, es: seq<Event>)
    ensures Inv(Run(Initial(taskbar, standalone, noItems), es))
  {
    RunKeeps(Initial(taskbar, standalone, noItems), es);
  }
}
