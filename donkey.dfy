/** The version in `prenotazioni_donkey.py`: the organiser picks a cover image (the
    default or a link) and then adds roles one at a time by name; after every role the
    event is rebuilt from all the names so far and posted again. */
module Donkey {
  import opened Text
  import opened Table

  /** The default cover image. It is written as three pieces so that the verifier sees
      its first and last characters (`BackgroundTrimmed`); the value is one link. */
  const BACKGROUND_URL: string :=
    "https://" + "cdn.discordapp.com/attachments/710523786558046298/1403090934857728001/" + "BCO.png"
  /** Declared next to DEFAULT_SLOTS; nothing in this version reads it. */
  const MAX_ROLES: int := 5
  const DEFAULT_SLOTS: int := 4

  /** The names added so far, each with the default capacity. */
  function RoleSpecs(roles: seq<string>): (specs: seq<(string, int)>)
    ensures |specs| == |roles| && Names(specs) == roles
    ensures forall i :: 0 <= i < |specs| ==> specs[i] == (roles[i], DEFAULT_SLOTS)
  {
    seq(|roles|, i requires 0 <= i < |roles| => (roles[i], DEFAULT_SLOTS))
  }

  /** The table `finish_setup` builds from the names added so far. */
  function SetupTable(roles: seq<string>, planes: map<string, string>): (t: RoleTable)
    ensures t.WellFormed()
  {
    BuildTable(RoleSpecs(roles), planes)
  }

  /** One role per distinct name, in order of first addition, each with the default
      capacity, its plane or "Non Attivo", and nobody booked. */
  lemma SetupTableShape(roles: seq<string>, planes: map<string, string>)
    ensures SetupTable(roles, planes).order == Dedup(roles)
    ensures forall r :: r in SetupTable(roles, planes).roles <==> r in roles
    ensures forall r :: r in roles ==> SetupTable(roles, planes).roles[r] == RoleState(PlaneOf(planes, r), DEFAULT_SLOTS, [])
    ensures WithinCapacity(SetupTable(roles, planes)) && NoDuplicateUsers(SetupTable(roles, planes))
  {
    var specs := RoleSpecs(roles);
    var t := SetupTable(roles, planes);
    forall r | r in roles ensures t.roles[r].slots == DEFAULT_SLOTS {
      assert (r, t.roles[r].slots) in specs;
    }
    BuildTableInvariants(specs, planes);
  }

  /** A name given twice makes a single role, so the event has fewer roles than names. */
  lemma RepeatedNameCollapses(roles: seq<string>, planes: map<string, string>, i: int, j: int)
    requires 0 <= i < j < |roles| && roles[i] == roles[j]
    ensures |SetupTable(roles, planes).order| < |roles|
  {
    SetupTableShape(roles, planes);
    DedupCollapses(roles, i, j);
  }

  /** Rebuilding after one more name is the previous table with that name assigned. */
  lemma AddingRoleExtends(roles: seq<string>, name: string, planes: map<string, string>)
    ensures SetupTable(roles + [name], planes) ==
            Assign(SetupTable(roles, planes), name, RoleState(PlaneOf(planes, name), DEFAULT_SLOTS, []))
  {
    var specs := RoleSpecs(roles + [name]);
    assert specs[..|specs| - 1] == RoleSpecs(roles);
  }

  /** Nothing in this version fills the plane choices, so every role is inactive. */
  lemma NoPlanesNoActiveRole(roles: seq<string>, r: string)
    requires r in roles
    ensures SetupTable(roles, map[]).roles[r].plane == NON_ACTIVE
    ensures !IsActive(SetupTable(roles, map[]).roles[r])
  {
    SetupTableShape(roles, map[]);
  }

  /** The embed `finish_setup` posts, with the image chosen in the dialogue. */
  function GenerateEmbed(data: string, desc: string, t: RoleTable, imageUrl: string): (e: Embed)
    requires t.WellFormed()
    ensures e.image == Some(imageUrl) && |e.fields| == |t.order|
  {
    EventEmbed(data, desc, t, imageUrl)
  }

  /** `self.image_url.value.strip() or BACKGROUND_URL`. */
  function ImageChoice(raw: string): (url: string)
    ensures url != "" && Trimmed(url)
    ensures url == BACKGROUND_URL || url == Strip(raw)
  {
    BackgroundTrimmed();
    if Strip(raw) != "" then Strip(raw) else BACKGROUND_URL
  }

  lemma BackgroundTrimmed()
    ensures BACKGROUND_URL != "" && Trimmed(BACKGROUND_URL)
  {
  }

  /** The chosen image is never empty and carries no surrounding whitespace; it is the
      default exactly when the link was blank (or was the default itself); and padding
      it with whitespace and submitting it again chooses the same image. */
  lemma ImageChoiceProperties(raw: string)
    ensures ImageChoice(raw) != "" && Trimmed(ImageChoice(raw))
    ensures ImageChoice(raw) == BACKGROUND_URL <==> (Strip(raw) == "" || Strip(raw) == BACKGROUND_URL)
    ensures forall p, q :: AllSpace(p) && AllSpace(q) ==> ImageChoice(p + ImageChoice(raw) + q) == ImageChoice(raw)
  {
    var u := ImageChoice(raw);
    BackgroundTrimmed();
    forall p, q | AllSpace(p) && AllSpace(q) ensures ImageChoice(p + u + q) == u {
      StripRemovesPadding(p, u, q);
    }
  }

  /** The global `bookings` of this version. */
  class BookingStore {
    var bookings: map<string, RoleTable>

    ghost predicate Valid()
      reads this
    {
      forall d :: d in bookings ==> bookings[d].WellFormed()
    }

    constructor ()
      ensures Valid() && bookings == map[]
    {
      bookings := map[];
    }
  }

  /** The state of one event's setup dialogue. */
  class EventSetupView {
    const data: string
    const desc: string
    var roles: seq<string>
    var selectedPlanes: map<string, string>
    var selectedImage: string

    constructor (data: string, desc: string)
      ensures this.data == data && this.desc == desc
      ensures roles == [] && selectedPlanes == map[] && selectedImage == BACKGROUND_URL
    {
      this.data := data;
      this.desc := desc;
      roles := [];
      selectedPlanes := map[];
      selectedImage := BACKGROUND_URL;
    }

    /** `ImageSelectButton.callback`: the default button sets the default image; the
        other one only opens the link dialogue. */
    method PressImageButton(isDefault: bool)
      modifies this
      ensures selectedImage == if isDefault then BACKGROUND_URL else old(selectedImage)
      ensures roles == old(roles) && selectedPlanes == old(selectedPlanes)
    {
      if isDefault {
        selectedImage := BACKGROUND_URL;
      }
    }

    /** `ImageLinkModal.on_submit`. */
    method SubmitImageLink(raw: string)
      modifies this
      ensures selectedImage == ImageChoice(raw)
      ensures roles == old(roles) && selectedPlanes == old(selectedPlanes)
    {
      selectedImage := ImageChoice(raw);
    }

    /** `EventSetupView.finish_setup`: rebuild the event from all names so far, store it
        under the event key and return the embed that is posted. */
    method FinishSetup(store: BookingStore) returns (embed: Embed)
      requires store.Valid()
      modifies store
      ensures store.Valid()
      ensures store.bookings == old(store.bookings)[data := SetupTable(roles, selectedPlanes)]
      ensures embed == GenerateEmbed(data, desc, SetupTable(roles, selectedPlanes), selectedImage)
    {
      var activeRoles := FillTable(RoleSpecs(roles), selectedPlanes);
      assert activeRoles == SetupTable(roles, selectedPlanes);
      store.bookings := store.bookings[data := activeRoles];
      embed := GenerateEmbed(data, desc, activeRoles, selectedImage);
    }

    /** `self.parent_view.roles.append(name)`. */
    method AddRole(name: string)
      modifies this
      ensures roles == old(roles) + [name]
      ensures selectedPlanes == old(selectedPlanes) && selectedImage == old(selectedImage)
    {
      roles := roles + [name];
    }

    /** `RoleInput.on_submit`: add the stripped name, then run `finish_setup`. */
    method SubmitRole(raw: string, store: BookingStore) returns (embed: Embed)
      requires store.Valid()
      modifies this, store
      ensures store.Valid()
      ensures roles == old(roles) + [Strip(raw)]
      ensures selectedPlanes == old(selectedPlanes) && selectedImage == old(selectedImage)
      ensures store.bookings == old(store.bookings)[data := SetupTable(roles, selectedPlanes)]
      ensures embed == GenerateEmbed(data, desc, SetupTable(roles, selectedPlanes), selectedImage)
    {
      AddRole(Strip(raw));
      embed := FinishSetup(store);
    }
  }
}
