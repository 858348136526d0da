/** The version in `test_prenotazionibackup.py`: one global list of users per template
    role, shared by every event; an event only chooses which roles are active. There
    is no check across roles. */
module Backup {
  import opened Text
  import opened Table

  const BACKGROUND_URL: string :=
    "https://cdn.discordapp.com/attachments/710523786558046298/1403090934857728001/BCO.png?ex=68c46e43&is=68c31cc3&hm=a2f06f5706910a3ad1e2394b0138f53843d30b4057a4e06087bb102e7cf35b50&"

  /** `roles`, the template with its capacities, in dict order. */
  const ROLES: seq<(string, int)> :=
    [("Barcap", 4), ("Escort", 4), ("Sead", 4), ("Dead", 4), ("Strike", 4)]

  /** The template's names are distinct and every role has 4 slots. */
  lemma TemplateNames()
    ensures NoDuplicates(Names(ROLES))
    ensures forall r :: r in Names(ROLES) ==> SlotsFor(ROLES, r) == 4
  {
    var names := Names(ROLES);
    assert names == ["Barcap", "Escort", "Sead", "Dead", "Strike"];
    forall r | r in names ensures SlotsFor(ROLES, r) == 4 {
      var i :| 0 <= i < |names| && names[i] == r;
      SlotsForDistinct(ROLES, i);
    }
  }

  /** Role name to the users booked into it. */
  type Bookings = map<string, seq<string>>

  /** Every template role has a list, which is all rendering needs. */
  predicate HasTemplateRoles(b: Bookings)
  {
    forall r :: r in Names(ROLES) ==> r in b
  }

  /** Every template role has a list, within capacity and without duplicates. */
  ghost predicate ValidBookings(b: Bookings)
  {
    forall r :: r in Names(ROLES) ==> r in b && |b[r]| <= SlotsFor(ROLES, r) && NoDuplicates(b[r])
  }

  /** `{role: [] for role in roles}`, the table when there is no saved file. */
  function InitialBookings(): (b: Bookings)
    ensures ValidBookings(b)
    ensures b.Keys == set r | r in Names(ROLES)
    ensures forall r :: r in b ==> b[r] == []
  {
    TemplateNames();
    map r | r in Names(ROLES) :: []
  }

  /** What `BookingButton.callback` does when `user` presses the button of `role`: the
      toggle on that role's global list, with no look at any other role. */
  function Callback(b: Bookings, role: string, user: string): (r: (Outcome, Bookings))
    requires role in b && role in Names(ROLES)
    ensures role in r.1 && r.1 == b[role := r.1[role]]
    ensures !r.0.AlreadyBooked?
  {
    var (o, users) := Toggle(b[role], SlotsFor(ROLES, role), user);
    (o, b[role := users])
  }

  /** The three outcomes of a press and what each does to the role's list. */
  lemma CallbackCases(b: Bookings, role: string, user: string)
    requires ValidBookings(b) && role in Names(ROLES)
    ensures var (o, after) := Callback(b, role, user);
      && (o == Removed <==> user in b[role])
      && (o == Full <==> user !in b[role] && |b[role]| >= 4)
      && (o == Added <==> user !in b[role] && |b[role]| < 4)
      && (o == Removed ==> user !in after[role] && multiset(after[role]) == multiset(b[role]) - multiset{user})
      && (o == Full ==> after == b)
      && (o == Added ==> after[role] == b[role] + [user])
  {
    TemplateNames();
    ToggleCases(b[role], 4, user);
    assert b[role := b[role]] == b;
  }

  /** Every press keeps every role within capacity and free of duplicates. */
  lemma CallbackKeepsValid(b: Bookings, role: string, user: string)
    requires ValidBookings(b) && role in Names(ROLES)
    ensures ValidBookings(Callback(b, role, user).1)
  {
    ToggleKeepsInvariants(b[role], SlotsFor(ROLES, role), user);
  }

  /** Nothing stops one user from holding two roles: pressing two roles with room books
      the user into both. */
  lemma TwoRolesAtOnce(b: Bookings, r1: string, r2: string, user: string)
    requires ValidBookings(b) && r1 in Names(ROLES) && r2 in Names(ROLES) && r1 != r2
    requires user !in b[r1] && user !in b[r2]
    requires |b[r1]| < SlotsFor(ROLES, r1) && |b[r2]| < SlotsFor(ROLES, r2)
    ensures var b1 := Callback(b, r1, user).1;
            var b2 := Callback(b1, r2, user).1;
            user in b2[r1] && user in b2[r2]
  {
  }

  // ---------------------------------------------------------------- rendering

  /** `if background_url: embed.set_image(url=background_url)`. */
  function Image(backgroundUrl: Option<string>): (image: Option<string>)
    ensures image.Some? <==> backgroundUrl.Some? && backgroundUrl.value != ""
    ensures image.Some? ==> image == backgroundUrl
  {
    if backgroundUrl.Some? && backgroundUrl.value != "" then backgroundUrl else None
  }

  /** `f"{role} ({len(bookings[role])}/{slots}) - {stato}"` and the booked list. */
  function RoleField(b: Bookings, active: seq<string>, role: string): (f: Field)
    requires role in b && role in Names(ROLES)
    ensures f.name == Occupancy(role, |b[role]|, 4) + " - " + (if role in active then ACTIVE_LABEL else INACTIVE_LABEL)
    ensures f.value == "Prenotati: " + NOBODY <==> b[role] == [] || b[role] == [NOBODY]
  {
    TemplateNames();
    var f := Field(Occupancy(role, |b[role]|, SlotsFor(ROLES, role)) + " - " + Stato(role in active),
                   "Prenotati: " + Pilots(b[role]), false);
    assert f.value[|"Prenotati: "|..] == Pilots(b[role]);
    f
  }

  /** One field per template role, in template order, active or not: the label gives
      the role, its occupancy out of 4 and whether it is selected for this event; the
      booked list reads "Nessuno" exactly when nobody (or a user called "Nessuno") is
      booked. */
  function Fields(b: Bookings, active: seq<string>): (fs: seq<Field>)
    requires HasTemplateRoles(b)
    ensures |fs| == |ROLES|
    ensures forall i :: 0 <= i < |fs| ==>
      var role := ROLES[i].0;
      && fs[i].name == Occupancy(role, |b[role]|, 4) + " - " + (if role in active then ACTIVE_LABEL else INACTIVE_LABEL)
      && (fs[i].value == "Prenotati: " + NOBODY <==> b[role] == [] || b[role] == [NOBODY])
  {
    seq(|ROLES|, i requires 0 <= i < |ROLES| => RoleField(b, active, Names(ROLES)[i]))
  }

  /** `generate_embed`: the event's title and description, then the shared lists. */
  function GenerateEmbed(data: string, desc: string, active: seq<string>, b: Bookings,
                         backgroundUrl: Option<string>): (e: Embed)
    requires HasTemplateRoles(b)
    ensures |e.fields| == |ROLES| && e.image == Image(backgroundUrl)
  {
    Embed(TITLE, Description(data, desc), COLOR, Fields(b, active), FOOTER, Image(backgroundUrl))
  }

  /** A field says "active" exactly for the roles selected for this event, and the
      image is shown exactly when a non-empty link is given. */
  lemma EmbedShowsSelection(data: string, desc: string, active: seq<string>, b: Bookings,
                            backgroundUrl: Option<string>, i: int)
    requires HasTemplateRoles(b) && 0 <= i < |ROLES|
    ensures var e := GenerateEmbed(data, desc, active, b, backgroundUrl);
      && |e.fields| == |ROLES|
      && e.fields[i].name == Occupancy(ROLES[i].0, |b[ROLES[i].0]|, 4) + " - " +
                             (if ROLES[i].0 in active then ACTIVE_LABEL else INACTIVE_LABEL)
      && (e.image.Some? <==> backgroundUrl.Some? && backgroundUrl.value != "")
  {
    TemplateNames();
    assert ROLES[i].0 in Names(ROLES);
  }

  /** Bookings are keyed by role only: after a booking from any event's message, the
      field of that role in every event's embed lists the user last. */
  lemma BookingShowsInEveryEvent(b: Bookings, role: string, user: string, i: int,
                                 data: string, desc: string, active: seq<string>,
                                 backgroundUrl: Option<string>)
    requires ValidBookings(b) && 0 <= i < |ROLES| && ROLES[i].0 == role
    requires Callback(b, role, user).0 == Added
    ensures var after := Callback(b, role, user).1;
            ValidBookings(after) &&
            GenerateEmbed(data, desc, active, after, backgroundUrl).fields[i].value ==
              "Prenotati: " + (if b[role] == [] then user else Join(b[role]) + ", " + user)
  {
    assert role in Names(ROLES);
    CallbackKeepsValid(b, role, user);
    JoinAppend(b[role], user);
  }

  /** `BookingView`: a button per template role, disabled unless the role is selected. */
  function BookingView(active: seq<string>): (bs: seq<Button>)
    ensures |bs| == |ROLES|
    ensures forall i :: 0 <= i < |bs| ==> bs[i].caption == ROLES[i].0 && (bs[i].disabled <==> ROLES[i].0 !in active)
  {
    seq(|ROLES|, i requires 0 <= i < |ROLES| => RoleButton(ROLES[i].0, ROLES[i].0 in active))
  }

  /** The global `bookings` of this version. */
  class BookingStore {
    var bookings: Bookings

    ghost predicate Valid()
      reads this
    {
      ValidBookings(bookings)
    }

    /** Start-up without a saved file. */
    constructor ()
      ensures Valid() && bookings == InitialBookings()
    {
      bookings := InitialBookings();
    }

    /** `BookingButton.callback`. */
    method Press(role: string, user: string) returns (o: Outcome)
      requires Valid() && role in Names(ROLES)
      modifies this
      ensures Valid()
      ensures (o, bookings) == Callback(old(bookings), role, user)
    {
      CallbackKeepsValid(bookings, role, user);
      var users := bookings[role];
      if user in users {
        bookings := bookings[role := RemoveFirst(users, user)];
        o := Removed;
        return;
      }
      if |users| >= SlotsFor(ROLES, role) {
        o := Full;
        assert bookings == bookings[role := users];
        return;
      }
      bookings := bookings[role := users + [user]];
      o := Added;
    }
  }
}
