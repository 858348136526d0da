/** The role table shared by the event-based bots: one event's mapping from role name
    to `{plane, slots, users}`, kept in Python's dict insertion order, together with
    the reservation toggle and the embed text that every version renders from it. */
module Table {
  import opened Text

  datatype Option<T> = None | Some(value: T)

  /** The plane value meaning "this role is switched off". */
  const NON_ACTIVE: string := "Non Attivo"
  const ACTIVE_LABEL: string := "\U{2705} Attivo"
  const INACTIVE_LABEL: string := "\U{274C} Non Attivo"
  const NOBODY: string := "Nessuno"

  const TITLE: string := "\U{1F4CB} Prenotazioni Piloti"
  const COLOR: int := 0x1abc9c
  const FOOTER: string := "Prenota cliccando i pulsanti qui sotto \U{2708}\U{FE0F}"

  predicate NoDuplicates<T(==)>(s: seq<T>)
  {
    forall i, j :: 0 <= i < j < |s| ==> s[i] != s[j]
  }

  /** One role of an event, as stored in the JSON file. */
  datatype RoleState = RoleState(plane: string, slots: int, users: seq<string>)

  /** A Python dict from role name to role state: `order` is the insertion order
      that `.items()` iterates in, `roles` the contents. */
  datatype RoleTable = RoleTable(order: seq<string>, roles: map<string, RoleState>)
  {
    ghost predicate WellFormed()
    {
      NoDuplicates(order) && forall r :: r in roles <==> r in order
    }
  }

  const EMPTY: RoleTable := RoleTable([], map[])

  /** `table[role] = info`: a new key goes to the end, an existing key keeps its place. */
  function Assign(t: RoleTable, role: string, info: RoleState): (r: RoleTable)
    requires t.WellFormed()
    ensures r.WellFormed()
    ensures r.roles == t.roles[role := info]
    ensures r.order == if role in t.roles then t.order else t.order + [role]
  {
    if role in t.roles then t.(roles := t.roles[role := info])
    else RoleTable(t.order + [role], t.roles[role := info])
  }

  /** Nobody is booked beyond a role's capacity. */
  ghost predicate WithinCapacity(t: RoleTable)
  {
    forall r :: r in t.roles ==> |t.roles[r].users| <= t.roles[r].slots
  }

  /** Nobody is booked twice into the same role. */
  ghost predicate NoDuplicateUsers(t: RoleTable)
  {
    forall r :: r in t.roles ==> NoDuplicates(t.roles[r].users)
  }

  // ---------------------------------------------------------------- building a table

  /** `selected_planes.get(role, "Non Attivo")`. */
  function PlaneOf(planes: map<string, string>, role: string): (plane: string)
    ensures role in planes ==> plane == planes[role]
    ensures role !in planes ==> plane == NON_ACTIVE
  {
    if role in planes then planes[role] else NON_ACTIVE
  }

  function Names(specs: seq<(string, int)>): (r: seq<string>)
    ensures |r| == |specs| && forall i :: 0 <= i < |specs| ==> r[i] == specs[i].0
  {
    seq(|specs|, i requires 0 <= i < |specs| => specs[i].0)
  }

  /** The keys of a dict filled from `xs` in turn: first occurrences, in order. */
  function Dedup(xs: seq<string>): (r: seq<string>)
    ensures NoDuplicates(r)
    ensures forall x :: x in r <==> x in xs
    ensures |r| <= |xs|
  {
    if xs == [] then []
    else
      var d := Dedup(xs[..|xs| - 1]);
      assert xs == xs[..|xs| - 1] + [xs[|xs| - 1]];
      if xs[|xs| - 1] in d then d else d + [xs[|xs| - 1]]
  }

  lemma {:induction false} DedupOfDistinct(xs: seq<string>)
    requires NoDuplicates(xs)
    ensures Dedup(xs) == xs
  {
    if xs != [] {
      var init := xs[..|xs| - 1];
      DedupOfDistinct(init);
      assert xs[|xs| - 1] !in init;
      assert init + [xs[|xs| - 1]] == xs;
    }
  }

  /** A name that occurs twice leaves the dict with fewer keys than names. */
  lemma {:induction false} DedupCollapses(xs: seq<string>, i: int, j: int)
    requires 0 <= i < j < |xs| && xs[i] == xs[j]
    ensures |Dedup(xs)| < |xs|
  {
    var init := xs[..|xs| - 1];
    if j == |xs| - 1 {
      assert xs[i] == init[i];
    } else {
      DedupCollapses(init, i, j);
    }
  }

  /** `template[name]["slots"]` for a template written as a dict literal: the last
      entry with that name wins. */
  function SlotsFor(specs: seq<(string, int)>, name: string): (s: int)
    requires name in Names(specs)
    ensures (name, s) in specs
  {
    var init := specs[..|specs| - 1];
    assert Names(specs) == Names(init) + [specs[|specs| - 1].0];
    if specs[|specs| - 1].0 == name then specs[|specs| - 1].1 else SlotsFor(init, name)
  }

  /** In a template with distinct names each name's slot count is its own entry's. */
  lemma {:induction false} SlotsForDistinct(specs: seq<(string, int)>, i: int)
    requires NoDuplicates(Names(specs)) && 0 <= i < |specs|
    ensures SlotsFor(specs, specs[i].0) == specs[i].1
  {
    var init := specs[..|specs| - 1];
    if i < |specs| - 1 {
      assert Names(specs)[i] != Names(specs)[|specs| - 1];
      assert Names(init) == Names(specs)[..|specs| - 1];
      SlotsForDistinct(init, i);
    }
  }

  /** The loop `for role, slots in specs: table[role] = {"plane": planes.get(role,
      "Non Attivo"), "slots": slots, "users": []}` starting from an empty dict. */
  function BuildTable(specs: seq<(string, int)>, planes: map<string, string>): (r: RoleTable)
    ensures r.WellFormed()
    ensures r.order == Dedup(Names(specs))
    ensures forall k :: k in r.roles ==>
      && r.roles[k].plane == PlaneOf(planes, k)
      && r.roles[k].slots == SlotsFor(specs, k)
      && r.roles[k].users == []
  {
    if specs == [] then EMPTY
    else
      var init := specs[..|specs| - 1];
      var (role, slots) := specs[|specs| - 1];
      assert Names(specs) == Names(init) + [role];
      Assign(BuildTable(init, planes), role, RoleState(PlaneOf(planes, role), slots, []))
  }

  /** The loop itself, as both event-based versions write it. */
  method FillTable(specs: seq<(string, int)>, planes: map<string, string>) returns (t: RoleTable)
    ensures t == BuildTable(specs, planes)
  {
    t := EMPTY;
    var i := 0;
    while i < |specs|
      invariant 0 <= i <= |specs|
      invariant t == BuildTable(specs[..i], planes)
    {
      var (role, slots) := specs[i];
      assert specs[..i + 1][..i] == specs[..i];
      assert BuildTable(specs[..i + 1], planes) ==
             Assign(BuildTable(specs[..i], planes), role, RoleState(PlaneOf(planes, role), slots, []));
      t := Assign(t, role, RoleState(PlaneOf(planes, role), slots, []));
      i := i + 1;
    }
    assert specs[..i] == specs;
  }

  /** With distinct names the table has exactly those roles, in that order, each with
      its own slot count, its plane choice and nobody booked. */
  lemma BuildTableDistinct(specs: seq<(string, int)>, planes: map<string, string>)
    requires NoDuplicates(Names(specs))
    ensures BuildTable(specs, planes).order == Names(specs)
    ensures forall i :: 0 <= i < |specs| ==>
      BuildTable(specs, planes).roles[specs[i].0] == RoleState(PlaneOf(planes, specs[i].0), specs[i].1, [])
  {
    DedupOfDistinct(Names(specs));
    var t := BuildTable(specs, planes);
    forall i | 0 <= i < |specs|
      ensures t.roles[specs[i].0] == RoleState(PlaneOf(planes, specs[i].0), specs[i].1, [])
    {
      assert specs[i].0 == Names(specs)[i];
      SlotsForDistinct(specs, i);
    }
  }

  /** A freshly built table satisfies both per-role invariants. */
  lemma BuildTableInvariants(specs: seq<(string, int)>, planes: map<string, string>)
    requires forall e :: e in specs ==> e.1 >= 0
    ensures WithinCapacity(BuildTable(specs, planes)) && NoDuplicateUsers(BuildTable(specs, planes))
  {
  }

  // ---------------------------------------------------------------- the reservation toggle

  /** What a press on a role button did. */
  datatype Outcome = AlreadyBooked(holder: string) | Removed | Full | Added

  function FirstIndex(s: seq<string>, x: string): (i: nat)
    requires x in s
    ensures i < |s| && s[i] == x && x !in s[..i]
  {
    if s[0] == x then 0 else 1 + FirstIndex(s[1..], x)
  }

  /** Python's `list.remove(x)`: drops the first occurrence, keeps the order of the
      rest. Python raises `ValueError` when `x` is absent; every caller tests
      membership first. */
  function RemoveFirst(s: seq<string>, x: string): (r: seq<string>)
    requires x in s
    ensures |r| == |s| - 1
    ensures forall k :: 0 <= k < |r| ==> r[k] == s[if k < FirstIndex(s, x) then k else k + 1]
  {
    s[..FirstIndex(s, x)] + s[FirstIndex(s, x) + 1..]
  }

  /** `remove` on a list that holds the user takes out exactly one copy of them. */
  lemma RemoveFirstExactlyOne(s: seq<string>, x: string)
    requires x in s
    ensures |RemoveFirst(s, x)| == |s| - 1
    ensures multiset(RemoveFirst(s, x)) == multiset(s) - multiset{x}
  {
    var i := FirstIndex(s, x);
    var a, b := s[..i], s[i + 1..];
    assert s == a + [x] + b;
    assert multiset(s) == multiset(a) + multiset{x} + multiset(b);
  }

  /** On a duplicate-free list `remove` leaves no copy of the user and no duplicate. */
  lemma RemoveFirstDistinct(s: seq<string>, x: string)
    requires NoDuplicates(s) && x in s
    ensures x !in RemoveFirst(s, x) && NoDuplicates(RemoveFirst(s, x))
  {
    var i := FirstIndex(s, x);
    var r := RemoveFirst(s, x);
    forall p, q | 0 <= p < q < |r| ensures r[p] != r[q] {
      assert r[p] == s[if p < i then p else p + 1];
      assert r[q] == s[if q < i then q else q + 1];
    }
    forall k | 0 <= k < |r| ensures r[k] != x {
      assert r[k] == s[if k < i then k else k + 1];
    }
  }

  /** Removing a user who was appended to a list without them gives the list back. */
  lemma RemoveFirstAfterAppend(s: seq<string>, x: string)
    requires x !in s
    ensures RemoveFirst(s + [x], x) == s
  {
    assert (s + [x])[..|s|] == s;
  }

  /** The shared decision on one role's list: a booked user is removed, a full role
      refuses, anybody else is appended. */
  function Toggle(users: seq<string>, slots: int, user: string): (r: (Outcome, seq<string>))
    ensures !r.0.AlreadyBooked?
    ensures r.0 == Removed <==> user in users
    ensures r.0 == Full ==> r.1 == users
  {
    if user in users then (Removed, RemoveFirst(users, user))
    else if |users| >= slots then (Full, users)
    else (Added, users + [user])
  }

  /** The toggle never overfills a role and never books a user twice into it. */
  lemma ToggleKeepsInvariants(users: seq<string>, slots: int, user: string)
    requires |users| <= slots && NoDuplicates(users)
    ensures |Toggle(users, slots, user).1| <= slots
    ensures NoDuplicates(Toggle(users, slots, user).1)
  {
    if user in users {
      RemoveFirstDistinct(users, user);
      RemoveFirstExactlyOne(users, user);
    }
  }

  /** Each of the three toggle branches, with everything it does to the list. */
  lemma ToggleCases(users: seq<string>, slots: int, user: string)
    requires NoDuplicates(users)
    ensures var (o, after) := Toggle(users, slots, user);
      && (o == Removed <==> user in users)
      && (o == Full <==> user !in users && |users| >= slots)
      && (o == Added <==> user !in users && |users| < slots)
      && (o == Removed ==> user !in after && multiset(after) == multiset(users) - multiset{user} && |after| == |users| - 1)
      && (o == Full ==> after == users)
      && (o == Added ==> after == users + [user] && |after| == |users| + 1)
  {
    if user in users {
      RemoveFirstDistinct(users, user);
      RemoveFirstExactlyOne(users, user);
    }
  }

  /** Booking and then cancelling the same role restores the list. */
  lemma ToggleTwice(users: seq<string>, slots: int, user: string)
    requires user !in users && |users| < slots
    ensures Toggle(users, slots, user).0 == Added
    ensures Toggle(Toggle(users, slots, user).1, slots, user) == (Removed, users)
  {
    RemoveFirstAfterAppend(users, user);
  }

  // ---------------------------------------------------------------- embed text

  predicate IsActive(info: RoleState)
  {
    info.plane != NON_ACTIVE
  }

  function Stato(active: bool): string
  {
    if active then ACTIVE_LABEL else INACTIVE_LABEL
  }

  /** `", ".join(users) if users else "Nessuno"`. The list reads "Nessuno" for an
      empty role, and otherwise only when the one booked user is literally called
      "Nessuno". */
  function Pilots(users: seq<string>): (text: string)
    ensures text == NOBODY <==> users == [] || users == [NOBODY]
  {
    if users == [] then NOBODY
    else
      assert |users| >= 2 ==> Join(users) != NOBODY by {
        if |users| >= 2 {
          JoinSeveralHasComma(users);
          assert ',' !in NOBODY;
        }
      }
      Join(users)
  }

  /** `f"{role} ({n}/{slots})"`. */
  function Occupancy(role: string, booked: nat, slots: int): (text: string)
    ensures role + " (" <= text && text[|text| - 1] == ')'
  {
    role + " (" + NatToString(booked) + "/" + IntToString(slots) + ")"
  }

  /** The count and the capacity in a field label read back as the numbers. */
  lemma OccupancyReadsBack(role: string, booked: nat, slots: int)
    ensures var c := NatToString(booked);
            var s := IntToString(slots);
            var text := Occupancy(role, booked, slots);
            && text == role + " (" + c + "/" + s + ")"
            && ParseNat(c) == booked && ParseInt(s) == slots
  {
    ParseNatToString(booked);
    ParseIntToString(slots);
  }

  datatype Field = Field(name: string, value: string, inline: bool)

  /** `name = f"{role} ({len(users)}/{slots}) - {stato} - {plane}"`, `value = f"Prenotati: {piloti}"`. */
  function RoleField(role: string, info: RoleState): (f: Field)
    ensures Shows(f, role, info)
  {
    var o := Occupancy(role, |info.users|, info.slots);
    var stato := Stato(IsActive(info));
    var f := Field(o + " - " + stato + " - " + info.plane, "Prenotati: " + Pilots(info.users), false);
    assert f.name[|o| + 3..] == stato + " - " + info.plane;
    assert ACTIVE_LABEL[0] != INACTIVE_LABEL[0];
    assert f.value[|"Prenotati: "|..] == Pilots(info.users);
    f
  }

  /** What a reader of a role's field can rely on: the label starts with the role and
      its occupancy, then says "Attivo" exactly when the role is active; the booked
      list reads "Nessuno" exactly when nobody (or a user called "Nessuno") is booked. */
  ghost predicate Shows(f: Field, role: string, info: RoleState)
  {
    var o := Occupancy(role, |info.users|, info.slots);
    && o + " - " <= f.name
    && (ACTIVE_LABEL <= f.name[|o| + 3..] <==> IsActive(info))
    && (f.value == "Prenotati: " + NOBODY <==> info.users == [] || info.users == [NOBODY])
  }

  /** Booking one more user adds exactly `", " + user` at the end of the field's
      list, or replaces "Nessuno" by the user. */
  lemma FieldAfterAppend(role: string, info: RoleState, user: string)
    ensures RoleField(role, info.(users := info.users + [user])).value ==
            if info.users == [] then "Prenotati: " + user else RoleField(role, info).value + ", " + user
  {
    JoinAppend(info.users, user);
  }

  /** One field per role, in the dict's order. */
  function Fields(t: RoleTable): (r: seq<Field>)
    requires t.WellFormed()
    ensures |r| == |t.order|
    ensures forall i :: 0 <= i < |r| ==> Shows(r[i], t.order[i], t.roles[t.order[i]])
  {
    seq(|t.order|, i requires 0 <= i < |t.order| => RoleField(t.order[i], t.roles[t.order[i]]))
  }

  datatype Embed = Embed(title: string, description: string, color: int, fields: seq<Field>,
                         footer: string, image: Option<string>)

  function Description(data: string, desc: string): string
  {
    "\U{1F4C5} Missione: " + data + "\n\U{1F4DD} " + desc
  }

  /** The embed both event-based versions post: their `generate_embed`. */
  function EventEmbed(data: string, desc: string, t: RoleTable, imageUrl: string): (e: Embed)
    requires t.WellFormed()
    ensures e.title == TITLE && e.image == Some(imageUrl) && |e.fields| == |t.order|
    ensures forall i :: 0 <= i < |e.fields| ==> Shows(e.fields[i], t.order[i], t.roles[t.order[i]])
  {
    Embed(TITLE, Description(data, desc), COLOR, Fields(t), FOOTER, Some(imageUrl))
  }

  // ---------------------------------------------------------------- role buttons

  datatype ButtonStyle = Success | Secondary

  datatype Button = Button(caption: string, style: ButtonStyle, disabled: bool)

  /** A role button: green and pressable when active, grey and disabled otherwise. */
  function RoleButton(role: string, active: bool): (b: Button)
    ensures b.caption == role
    ensures b.disabled <==> !active
    ensures b.style == Success <==> active
  {
    Button(role, if active then Success else Secondary, !active)
  }
}
