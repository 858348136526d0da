/** The version in `test_prenotazioni.py`: events built from a fixed role template
    with one plane chosen per role, a plane picker, and role buttons that refuse a
    user who already holds another role of the same event. */
module Prenotazioni {
  import opened Text
  import opened Table

  const BACKGROUND_URL: string := "https://cdn.discordapp.com/attachments/710523786558046298/1403090934857728001/BCO.png"

  /** `roles_template`, in its dict order. */
  const ROLES_TEMPLATE: seq<(string, int)> :=
    [("Barcap", 4), ("Escort", 4), ("Sead", 4), ("Dead", 4), ("Strike", 4)]

  /** The choices each role's plane menu offers. */
  const PLANE_OPTIONS: seq<string> := ["FA-18C", "F-16C", NON_ACTIVE]

  // ---------------------------------------------------------------- invariants

  /** Every user holds at most one role of the event. */
  ghost predicate OneRolePerUser(t: RoleTable)
  {
    forall r1, r2, u :: r1 in t.roles && r2 in t.roles && u in t.roles[r1].users && u in t.roles[r2].users ==> r1 == r2
  }

  /** The invariants of an event table. The cross-role check tests the found role for
      truth, so a role named "" would escape it; template names are never empty. */
  ghost predicate Consistent(t: RoleTable)
  {
    && t.WellFormed()
    && "" !in t.roles
    && WithinCapacity(t)
    && NoDuplicateUsers(t)
    && OneRolePerUser(t)
  }

  // ---------------------------------------------------------------- the cross-role scan

  predicate Holds(roles: map<string, RoleState>, role: string, user: string)
  {
    role in roles && user in roles[role].users
  }

  /** The position at which `for r, info in active_roles.items(): if user in info["users"]:
      ... break` stops; the length of the order when it never breaks. */
  function HolderIndex(order: seq<string>, roles: map<string, RoleState>, user: string): (i: nat)
    ensures i <= |order|
    ensures forall j :: 0 <= j < i ==> !Holds(roles, order[j], user)
    ensures i < |order| ==> Holds(roles, order[i], user)
  {
    if order == [] then 0
    else if Holds(roles, order[0], user) then 0
    else 1 + HolderIndex(order[1..], roles, user)
  }

  /** `already_in_role`: the first role, in dict order, whose list holds the user. */
  function Holder(t: RoleTable, user: string): (h: Option<string>)
    requires t.WellFormed()
    ensures h.Some? ==> h.value in t.roles && user in t.roles[h.value].users
    ensures h.None? <==> forall r :: r in t.roles ==> user !in t.roles[r].users
  {
    var i := HolderIndex(t.order, t.roles, user);
    if i < |t.order| then Some(t.order[i]) else None
  }

  /** When users hold one role each, the role found is the one the user holds. */
  lemma HolderIsTheRoleHeld(t: RoleTable, role: string, user: string)
    requires t.WellFormed() && OneRolePerUser(t)
    requires role in t.roles && user in t.roles[role].users
    ensures Holder(t, user) == Some(role)
  {
  }

  /** The scan loop of the callback. */
  method ScanHolder(t: RoleTable, user: string) returns (already: Option<string>)
    requires t.WellFormed()
    ensures already == Holder(t, user)
  {
    already := None;
    var i := 0;
    while i < |t.order|
      invariant 0 <= i <= |t.order|
      invariant forall j :: 0 <= j < i ==> !Holds(t.roles, t.order[j], user)
    {
      var r := t.order[i];
      if user in t.roles[r].users {
        already := Some(r);
        break;
      }
      i := i + 1;
    }
  }

  // ---------------------------------------------------------------- the callback

  /** What `BookingButton.callback` does to the event table when `user` presses the
      button of `role`. */
  function Callback(t: RoleTable, role: string, user: string): (r: (Outcome, RoleTable))
    requires t.WellFormed() && role in t.roles
    ensures r.1.WellFormed() && r.1.order == t.order && r.1.roles.Keys == t.roles.Keys
    ensures forall k :: k in t.roles && k != role ==> r.1.roles[k] == t.roles[k]
    ensures r.1.roles[role].plane == t.roles[role].plane && r.1.roles[role].slots == t.roles[role].slots
  {
    var holder := Holder(t, user);
    if holder.Some? && holder.value != "" && holder.value != role then (AlreadyBooked(holder.value), t)
    else
      var info := t.roles[role];
      var (o, users) := Toggle(info.users, info.slots, user);
      (o, t.(roles := t.roles[role := info.(users := users)]))
  }

  /** A user booked into another role is refused and the table is left alone. */
  lemma CallbackRefusesOtherRole(t: RoleTable, role: string, other: string, user: string)
    requires Consistent(t) && role in t.roles && other in t.roles && other != role
    requires user in t.roles[other].users
    ensures Callback(t, role, user) == (AlreadyBooked(other), t)
  {
    HolderIsTheRoleHeld(t, other, user);
  }

  /** A user booked into the pressed role is taken out of it, exactly once, and of
      nothing else. */
  lemma CallbackRemoves(t: RoleTable, role: string, user: string)
    requires Consistent(t) && role in t.roles && user in t.roles[role].users
    ensures var (o, after) := Callback(t, role, user);
      && o == Removed
      && after.roles[role].users == RemoveFirst(t.roles[role].users, user)
      && user !in after.roles[role].users
      && multiset(after.roles[role].users) == multiset(t.roles[role].users) - multiset{user}
  {
    HolderIsTheRoleHeld(t, role, user);
    ToggleCases(t.roles[role].users, t.roles[role].slots, user);
  }

  /** A user who holds no role is refused by a full role and the table is left alone. */
  lemma CallbackFull(t: RoleTable, role: string, user: string)
    requires t.WellFormed() && role in t.roles
    requires forall r :: r in t.roles ==> user !in t.roles[r].users
    requires |t.roles[role].users| >= t.roles[role].slots
    ensures Callback(t, role, user) == (Full, t)
  {
    assert t.roles[role := t.roles[role]] == t.roles;
  }

  /** A user who holds no role is appended to a role with room, which grows by one. */
  lemma CallbackAdds(t: RoleTable, role: string, user: string)
    requires t.WellFormed() && role in t.roles
    requires forall r :: r in t.roles ==> user !in t.roles[r].users
    requires |t.roles[role].users| < t.roles[role].slots
    ensures var (o, after) := Callback(t, role, user);
      && o == Added
      && after.roles[role].users == t.roles[role].users + [user]
      && |after.roles[role].users| == |t.roles[role].users| + 1
  {
  }

  /** Every press keeps an event consistent. */
  lemma CallbackKeepsConsistent(t: RoleTable, role: string, user: string)
    requires Consistent(t) && role in t.roles
    ensures Consistent(Callback(t, role, user).1)
  {
    var (o, after) := Callback(t, role, user);
    var info := t.roles[role];
    ToggleKeepsInvariants(info.users, info.slots, user);
    ToggleCases(info.users, info.slots, user);
    if o == Added {
      assert Holder(t, user).None?;
      forall r1, r2, u | r1 in after.roles && r2 in after.roles && u in after.roles[r1].users && u in after.roles[r2].users
        ensures r1 == r2
      {
        assert u in t.roles[r1].users || (r1 == role && u == user);
        assert u in t.roles[r2].users || (r2 == role && u == user);
      }
    } else if o == Removed {
      forall r | r in after.roles ensures forall u :: u in after.roles[r].users ==> u in t.roles[r].users {
        if r == role {
          forall u | u in after.roles[r].users ensures u in t.roles[r].users {
            assert u in multiset(after.roles[r].users);
          }
        }
      }
    }
  }

  /** Booking a role with room and pressing it again gives back the original table. */
  lemma CallbackTwiceRestores(t: RoleTable, role: string, user: string)
    requires t.WellFormed() && role in t.roles
    requires forall r :: r in t.roles ==> user !in t.roles[r].users
    requires |t.roles[role].users| < t.roles[role].slots
    ensures Callback(t, role, user).0 == Added
    ensures Callback(Callback(t, role, user).1, role, user) == (Removed, t)
  {
    var info := t.roles[role];
    var after := Callback(t, role, user).1;
    assert after.roles == t.roles[role := info.(users := info.users + [user])];
    assert Holder(after, user) == Some(role) by {
      var i := HolderIndex(after.order, after.roles, user);
      assert after.order[i] == role;
    }
    ToggleTwice(info.users, info.slots, user);
    assert after.roles[role := after.roles[role].(users := info.users)] == t.roles;
  }

  /** After a booking, the role's field lists the new user last. */
  lemma CallbackAddedShowsUser(t: RoleTable, role: string, user: string)
    requires t.WellFormed() && role in t.roles
    requires Callback(t, role, user).0 == Added
    ensures var before := t.roles[role].users;
            RoleField(role, Callback(t, role, user).1.roles[role]).value ==
              if before == [] then "Prenotati: " + user else RoleField(role, t.roles[role]).value + ", " + user
  {
    var info := t.roles[role];
    assert Callback(t, role, user).1.roles[role] == info.(users := info.users + [user]);
    FieldAfterAppend(role, info, user);
  }

  // ---------------------------------------------------------------- rendering and enablement

  /** This version always shows the default background image. */
  function GenerateEmbed(data: string, desc: string, t: RoleTable): (e: Embed)
    requires t.WellFormed()
    ensures e.image == Some(BACKGROUND_URL) && |e.fields| == |t.order|
  {
    EventEmbed(data, desc, t, BACKGROUND_URL)
  }

  /** A role's button is live exactly for users flying that role's plane. */
  function BookingButton(t: RoleTable, role: string, plane: string): (b: Button)
    requires role in t.roles
    ensures b.disabled <==> t.roles[role].plane != plane
  {
    RoleButton(role, t.roles[role].plane == plane)
  }

  /** `BookingView`: one button per role, in the dict's order. */
  function BookingView(t: RoleTable, plane: string): (bs: seq<Button>)
    requires t.WellFormed()
    ensures |bs| == |t.order|
    ensures forall i :: 0 <= i < |bs| ==>
      && bs[i].caption == t.order[i]
      && (bs[i].disabled <==> t.roles[t.order[i]].plane != plane)
      && (bs[i].style == Success <==> t.roles[t.order[i]].plane == plane)
  {
    seq(|t.order|, i requires 0 <= i < |t.order| => BookingButton(t, t.order[i], plane))
  }

  /** The options of the plane picker: the distinct planes of the active roles. */
  function SelectablePlanes(t: RoleTable): (ps: set<string>)
    ensures NON_ACTIVE !in ps
    ensures forall r :: r in t.roles ==> (t.roles[r].plane in ps <==> IsActive(t.roles[r]))
    ensures forall p :: p in ps ==> exists r :: r in t.roles && t.roles[r].plane == p
  {
    set r | r in t.roles && t.roles[r].plane != NON_ACTIVE :: t.roles[r].plane
  }

  /** A role is shown as active exactly when its plane is on offer in the picker. */
  lemma ActiveIffSelectable(t: RoleTable, role: string)
    requires role in t.roles
    ensures IsActive(t.roles[role]) <==> t.roles[role].plane in SelectablePlanes(t)
    ensures RoleField(role, t.roles[role]).name ==
            Occupancy(role, |t.roles[role].users|, t.roles[role].slots) + " - " +
            (if t.roles[role].plane in SelectablePlanes(t) then ACTIVE_LABEL else INACTIVE_LABEL) +
            " - " + t.roles[role].plane
  {
  }

  /** Picking a plane offered by the picker enables at least one button, and only
      buttons of active roles. */
  lemma PickedPlaneEnablesActiveRoles(t: RoleTable, plane: string)
    requires plane in SelectablePlanes(t)
    ensures exists r :: r in t.roles && !BookingButton(t, r, plane).disabled
    ensures forall r :: r in t.roles && !BookingButton(t, r, plane).disabled ==> IsActive(t.roles[r])
  {
    var r :| r in t.roles && t.roles[r].plane != NON_ACTIVE && t.roles[r].plane == plane;
    assert !BookingButton(t, r, plane).disabled;
  }

  // ---------------------------------------------------------------- the event created

  /** The table `confirm` builds: the template's roles, in order, each with the plane
      picked for it or "Non Attivo", 4 slots and nobody booked; and it is consistent. */
  lemma ConfirmedTable(planes: map<string, string>)
    ensures BuildTable(ROLES_TEMPLATE, planes).order == Names(ROLES_TEMPLATE)
    ensures forall i :: 0 <= i < |ROLES_TEMPLATE| ==>
      BuildTable(ROLES_TEMPLATE, planes).roles[ROLES_TEMPLATE[i].0] ==
        RoleState(PlaneOf(planes, ROLES_TEMPLATE[i].0), 4, [])
    ensures Consistent(BuildTable(ROLES_TEMPLATE, planes))
  {
    TemplateNames();
    BuildTableDistinct(ROLES_TEMPLATE, planes);
    BuildTableInvariants(ROLES_TEMPLATE, planes);
  }

  /** The template's names are distinct and non-empty, and every role has 4 slots. */
  lemma TemplateNames()
    ensures NoDuplicates(Names(ROLES_TEMPLATE)) && "" !in Names(ROLES_TEMPLATE)
    ensures forall i :: 0 <= i < |ROLES_TEMPLATE| ==> ROLES_TEMPLATE[i].1 == 4
    ensures forall e :: e in ROLES_TEMPLATE ==> e.1 >= 0
  {
    var names := Names(ROLES_TEMPLATE);
    assert names == ["Barcap", "Escort", "Sead", "Dead", "Strike"];
  }

  /** When every pick came from the role menus, the picker offers only real planes. */
  lemma PickerOffersMenuPlanes(planes: map<string, string>)
    requires forall r :: r in planes ==> planes[r] in PLANE_OPTIONS
    ensures SelectablePlanes(BuildTable(ROLES_TEMPLATE, planes)) <= {"FA-18C", "F-16C"}
  {
    PicksBoundPlanes(BuildTable(ROLES_TEMPLATE, planes), planes);
  }

  /** A table whose planes all come from menu picks offers only the menus' planes. */
  lemma PicksBoundPlanes(t: RoleTable, planes: map<string, string>)
    requires forall r :: r in planes ==> planes[r] in PLANE_OPTIONS
    requires forall k :: k in t.roles ==> t.roles[k].plane == PlaneOf(planes, k)
    ensures SelectablePlanes(t) <= {"FA-18C", "F-16C"}
  {
    forall p | p in SelectablePlanes(t) ensures p in {"FA-18C", "F-16C"} {
      var r :| r in t.roles && t.roles[r].plane == p;
      assert p == PlaneOf(planes, r) && p != NON_ACTIVE;
      assert p in PLANE_OPTIONS;
    }
  }

  /** The table `confirm` stores keeps the invariants. */
  lemma ConfirmedConsistent(planes: map<string, string>, t: RoleTable)
    requires t == BuildTable(ROLES_TEMPLATE, planes)
    ensures Consistent(t)
  {
    ConfirmedTable(planes);
  }

  /** Storing a consistent table under an event key keeps every event consistent. */
  lemma StoreEvent(bookings: map<string, RoleTable>, data: string, t: RoleTable)
    requires AllConsistent(bookings) && Consistent(t)
    ensures AllConsistent(bookings[data := t])
  {
  }

  /** Every stored event is consistent. */
  ghost predicate AllConsistent(bookings: map<string, RoleTable>)
  {
    forall d :: d in bookings ==> Consistent(bookings[d])
  }

  /** The global `bookings`: event key to role table. */
  class BookingStore {
    var bookings: map<string, RoleTable>

    ghost predicate Valid()
      reads this
    {
      AllConsistent(bookings)
    }

    /** No saved file: an empty table of events. */
    constructor ()
      ensures Valid() && bookings == map[]
    {
      bookings := map[];
    }

    /** `BookingButton.callback`: the user presses the button of `role` in the message
        of event `data`. */
    method Press(data: string, role: string, user: string) returns (o: Outcome)
      requires Valid() && data in bookings && role in bookings[data].roles
      modifies this
      ensures Valid()
      ensures o == Callback(old(bookings[data]), role, user).0
      ensures bookings == old(bookings)[data := Callback(old(bookings[data]), role, user).1]
    {
      var t := bookings[data];
      var already := ScanHolder(t, user);
      if already.Some? && already.value != "" && already.value != role {
        o := AlreadyBooked(already.value);
        assert bookings == bookings[data := t];
        return;
      }
      var info := t.roles[role];
      if user in info.users {
        info := info.(users := RemoveFirst(info.users, user));
        o := Removed;
      } else if |info.users| >= info.slots {
        o := Full;
        assert bookings == bookings[data := t] && t.roles == t.roles[role := t.roles[role]];
        return;
      } else {
        info := info.(users := info.users + [user]);
        o := Added;
      }
      CallbackKeepsConsistent(t, role, user);
      bookings := bookings[data := t.(roles := t.roles[role := info])];
    }
  }

  /** The setup dialogue of one event: the planes picked so far, per role. */
  class EventSetupView {
    const data: string
    const desc: string
    var selectedPlanes: map<string, string>

    constructor (data: string, desc: string)
      ensures this.data == data && this.desc == desc && selectedPlanes == map[]
    {
      this.data := data;
      this.desc := desc;
      selectedPlanes := map[];
    }

    /** `RolePlaneSelect.callback`: remember the plane picked for a role. */
    method SelectPlane(role: string, plane: string)
      modifies this
      ensures selectedPlanes == old(selectedPlanes)[role := plane]
    {
      selectedPlanes := selectedPlanes[role := plane];
    }

    /** `ConfirmButtonView.confirm`: build the event from the template and the picked
        planes, store it under the event key and return the embed that is posted. */
    method Confirm(store: BookingStore) returns (embed: Embed)
      requires store.Valid()
      modifies store
      ensures store.Valid()
      ensures store.bookings == old(store.bookings)[data := BuildTable(ROLES_TEMPLATE, selectedPlanes)]
      ensures embed == GenerateEmbed(data, desc, store.bookings[data])
    {
      var activeRoles := FillTable(ROLES_TEMPLATE, selectedPlanes);
      ConfirmedConsistent(selectedPlanes, activeRoles);
      StoreEvent(store.bookings, data, activeRoles);
      store.bookings := store.bookings[data := activeRoles];
      embed := GenerateEmbed(data, desc, activeRoles);
    }
  }
}
