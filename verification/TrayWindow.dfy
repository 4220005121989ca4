/**
 The notification area as the program runs it: a list of icons and a few globals that
 every message updates in place.
 */
module TrayWindow {
  import opened WideText
  import opened TrayModel
  import opened TrayLaws

  class TrayState {
    var icons: seq<Icon>
    var shown: nat
    var balloon: Option<nat>
    var balloonUp: bool
    var timers: set<(nat, Timer)>
    var taskbar: bool
    var standalone: bool
    var noItems: bool
    var nextWindow: nat

    ghost function S(): Tray
      reads this
    {
      Tray(icons, shown, balloon, balloonUp, timers, taskbar, standalone, noItems, nextWindow)
    }

    constructor (taskbar: bool, standalone: bool, noItems: bool)
      ensures S() == Initial(taskbar, standalone, noItems) && Inv(S())
    {
      icons, shown, balloon, balloonUp, timers := [], 0, None, false, {};
      this.taskbar, this.standalone, this.noItems := taskbar, standalone, noItems;
      nextWindow := 1;
    }

    /** get_icon */
    method GetIcon(owner: nat, id: nat) returns (i: nat)
      ensures i == Find(icons, owner, id)
    {
      i := 0;
      while i < |icons| && !(icons[i].owner == owner && icons[i].id == id)
        invariant 0 <= i <= |icons|
        invariant forall k :: 0 <= k < i ==> !(icons[k].owner == owner && icons[k].id == id)
      {
        i := i + 1;
      }
    }

    /** systray_add_icon */
    method AddToTray(i: nat)
      requires i < |icons|
      modifies this`icons, this`shown
      ensures S() == AddSlot(old(S()), i)
    {
      if icons[i].display != HIDDEN { return; }
      icons := icons[i := icons[i].(display := shown)];
      shown := shown + 1;
    }

    /** systray_remove_icon: the loop moves the icons in later slots down. */
    method RemoveFromTray(i: nat)
      requires i < |icons| && Slots(icons, shown)
      modifies this`icons, this`shown
      ensures S() == RemoveSlot(old(S()), i)
    {
      if icons[i].display == HIDDEN { return; }
      ghost var was := icons;
      VacateKeeps(was, i, shown);
      assert shown > 0;
      var j := 0;
      while j < |icons|
        invariant 0 <= j <= |icons| == |was| && icons[i] == was[i] && shown == old(shown)
        invariant forall k :: 0 <= k < j && k != i ==> icons[k] == Vacate(was, i)[k]
        invariant forall k :: j <= k < |was| ==> icons[k] == was[k]
      {
        if j != i && icons[j].display >= icons[i].display {
          icons := icons[j := icons[j].(display := icons[j].display - 1)];
        }
        j := j + 1;
      }
      shown := shown - 1;
      icons := icons[i := icons[i].(display := HIDDEN)];
      assert icons == Vacate(was, i);
    }

    /** show_balloon */
    method TryBalloon(i: nat) returns (ok: bool)
      requires i < |icons|
      modifies this`balloon, this`timers
      ensures ok == CanShow(old(S()), i) && S() == ShowBalloon(old(S()), i)
    {
      if !taskbar && !standalone { return false; }
      if icons[i].display == HIDDEN { return false; }
      if icons[i].info == [] { return false; }
      balloon := Some(icons[i].window);
      timers := timers + {(icons[i].window, CreateTimer)};
      return true;
    }

    /** hide_balloon */
    method DropBalloon()
      modifies this`balloon, this`balloonUp, this`timers
      ensures S() == HideBalloon(old(S()))
    {
      if balloon.None? { return; }
      if balloonUp {
        timers := timers - {(balloon.value, ShowTimer)};
        balloonUp := false;
      } else {
        timers := timers - {(balloon.value, CreateTimer)};
      }
      balloon := None;
    }

    /** update_balloon */
    method RenewBalloon(i: nat)
      requires i < |icons|
      modifies this`balloon, this`balloonUp, this`timers
      ensures S() == UpdateBalloon(old(S()), i)
    {
      if balloon == Some(icons[i].window) {
        DropBalloon();
        var _ := TryBalloon(i);
      } else if balloon.None? {
        var _ := TryBalloon(i);
      }
    }

    /** show_next_balloon */
    method ShowNextBalloon()
      modifies this`balloon, this`timers
      ensures S() == NextBalloon(old(S()), 0)
    {
      var i := 0;
      while i < |icons|
        invariant 0 <= i <= |icons| && S() == old(S()) && NextBalloon(old(S()), 0) == NextBalloon(old(S()), i)
      {
        var ok := TryBalloon(i);
        if ok { return; }
        i := i + 1;
      }
    }

    /** show_icon */
    method Show(i: nat)
      requires i < |icons|
      modifies this`icons, this`shown, this`balloon, this`balloonUp, this`timers
      ensures S() == ShowIcon(old(S()), i)
    {
      if noItems { return; }
      if icons[i].display != HIDDEN { return; }
      AddToTray(i);
      RenewBalloon(i);
    }

    /** hide_icon */
    method Hide(i: nat)
      requires i < |icons| && Slots(icons, shown)
      modifies this`icons, this`shown, this`balloon, this`balloonUp, this`timers
      ensures S() == HideIcon(old(S()), i)
    {
      if icons[i].display == HIDDEN { return; }
      RemoveFromTray(i);
      RenewBalloon(i);
    }

    /** The fields a request may set. */
    method ApplyRequest(i: nat, q: Request)
      requires i < |icons|
      modifies this`icons
      ensures icons == old(icons)[i := Requested(old(icons[i]), q)]
    {
      if q.setState && q.hideMask { icons := icons[i := icons[i].(hide := q.hide)]; }
      if q.setInfo { icons := icons[i := icons[i].(info := q.info, timeout := Clamp(q.timeout))]; }
    }

    /** modify_icon */
    method ModifyIcon(i: nat, q: Request)
      requires i < |icons| && Inv(S())
      modifies this`icons, this`shown, this`balloon, this`balloonUp, this`timers
      ensures S() == Modify(old(S()), i, q) && Inv(S()) && CarriedOut(old(S()), i, q, S())
    {
      ModifyMeans(S(), i, q);
      hide CarriedOut, HideIcon, ShowIcon, UpdateBalloon, Keys, Slots, Speaking, Requested, OneTimer, SameKeys;
      ModifyKeeps(S(), i, q);
      RequestKeeps(S(), i, q);
      ApplyRequest(i, q);
      if q.setInfo { RenewBalloon(i); }
      if icons[i].hide { Hide(i); } else { Show(i); }
    }

    /** add_icon */
    method AddIcon(q: Request) returns (ok: bool)
      requires Inv(S())
      modifies this
      ensures S() == Add(old(S()), q) && Inv(S()) && (ok <==> Find(old(icons), q.owner, q.id) == |old(icons)|)
    {
      var i := GetIcon(q.owner, q.id);
      if i < |icons| { return false; }
      ListIcon(q);
      ModifyIcon(i, q);
      return true;
    }

    /** A new icon starts hidden at the end of the list. */
    method ListIcon(q: Request)
      requires Inv(S()) && Find(icons, q.owner, q.id) == |icons|
      modifies this`icons, this`nextWindow
      ensures S() == Listed(old(S()), q) && Inv(S()) && |icons| == |old(icons)| + 1
    {
      ListedKeeps(S(), q);
      icons := icons + [Icon(nextWindow, q.owner, q.id, 0, false, [], 0, HIDDEN)];
      nextWindow := nextWindow + 1;
    }

    /** delete_icon */
    method DeleteIcon(i: nat)
      requires i < |icons| && Inv(S())
      modifies this`icons, this`shown, this`balloon, this`balloonUp, this`timers
      ensures S() == Delete(old(S()), i) && Inv(S())
    {
      DeleteKeeps(S(), i);
      Hide(i);
      icons := icons[..i] + icons[i + 1..];
    }

    /** cleanup_systray_window */
    method CleanupOwner(owner: nat)
      requires Inv(S())
      modifies this`icons, this`shown, this`balloon, this`balloonUp, this`timers
      ensures S() == Cleanup(old(S()), 0, owner) && Inv(S())
    {
      var k := 0;
      while k < |icons|
        invariant 0 <= k <= |icons| && Inv(S()) && Cleanup(S(), k, owner) == Cleanup(old(S()), 0, owner)
        decreases |icons| - k
      {
        if icons[k].owner == owner { DeleteIcon(k); } else { k := k + 1; }
      }
    }

    /** The handler of WM_USER + 1 */
    method RefreshIcons()
      requires Inv(S())
      modifies this`icons, this`shown, this`balloon, this`balloonUp, this`timers
      ensures S() == Refresh(old(S()), 0) && Inv(S())
    {
      hide Inv, HideIcon, ShowIcon;
      ghost var end := Refresh(S(), 0);
      var k := 0;
      while k < |icons|
        invariant k <= |icons| && Inv(S()) && RefreshLeads(S(), k, end)
        decreases |icons| - k
      {
        RefreshStep(S(), k, end);
        Reseat(k);
        k := k + 1;
      }
    }

    method Reseat(k: nat)
      requires k < |icons| && Inv(S())
      modifies this`icons, this`shown, this`balloon, this`balloonUp, this`timers
      ensures S() == ShowIcon(HideIcon(old(S()), k), k) && Inv(S()) && |icons| == |old(icons)|
    {
      HideIconKeeps(S(), k);
      ShowIconKeeps(HideIcon(S(), k), k);
      Hide(k);
      Show(k);
    }

    /** WM_TIMER of an icon's window: balloon_create_timer or balloon_timer */
    method FireTimer(w: nat, timer: Timer)
      requires Inv(S())
      modifies this`icons, this`balloon, this`balloonUp, this`timers
      ensures S() == Step(old(S()), TimerFires(w, timer)) && Inv(S())
    {
      hide Keys, Slots, NextBalloon;
      TimerKeeps(S(), w, timer);
      if (w, timer) !in timers { return; }
      TimerLive(S(), w, timer);
      var i := FindWindow(icons, w);
      if timer == CreateTimer {
        balloonUp := true;
        balloon := Some(w);
        timers := timers - {(w, CreateTimer)};
        timers := timers + {(w, ShowTimer)};
      } else {
        icons := icons[i := icons[i].(info := [])];
        DropBalloon();
        ShowNextBalloon();
      }
    }

    /** handle_incoming on a request other than an addition */
    method HandleNotify(e: Event)
      requires Inv(S()) && (e.NotifyModify? || e.NotifyDelete? || e.NotifyVersion?)
      modifies this`icons, this`shown, this`balloon, this`balloonUp, this`timers
      ensures S() == Step(old(S()), e) && Inv(S())
    {
      StepKeeps(S(), e);
      var i := GetIcon(e.request.owner, e.request.id);
      if i == |icons| { return; }
      match e
      case NotifyModify(q) => ModifyIcon(i, q);
      case NotifyDelete(q) => DeleteIcon(i);
      case NotifyVersion(q) => icons := icons[i := icons[i].(version := q.version)];
    }

    /** Any message of the tray and its icons */
    method Handle(e: Event)
      requires Inv(S())
      modifies this
      ensures S() == Step(old(S()), e) && Inv(S())
      ensures e.NotifyAdd? && Unlisted(old(S()), e.request.owner, e.request.id) ==> AddedLast(old(S()), e.request, S())
      ensures e.NotifyModify? ==>
        forall i :: IsAt(old(S()), i, e.request.owner, e.request.id) ==> CarriedOut(old(S()), i, e.request, S())
    {
      hide AddedLast, CarriedOut, Slots, Keys, Speaking, Add, Modify, Delete, Cleanup, Refresh, EndBalloon;
      if e.NotifyAdd? { NotifyAddMeans(S(), e.request); }
      if e.NotifyModify? { NotifyModifyMeans(S(), e.request); }
      match e
      case NotifyAdd(q) => var _ := AddIcon(q);
      case NotifyModify(_) => HandleNotify(e);
      case NotifyDelete(_) => HandleNotify(e);
      case NotifyVersion(_) => HandleNotify(e);
      case OwnerDestroyed(owner) => CleanupOwner(owner);
      case OwnerGone(w) =>
        var i := FindWindow(icons, w);
        if i < |icons| { DeleteIcon(i); }
      case TimerFires(w, timer) => FireTimer(w, timer);
      case CloseTray =>
        StepKeeps(S(), e);
        DropBalloon();
        standalone := false;
      case RefreshAll => RefreshIcons();
    }
  }
}
