/** What the target-species sidebar block derives from the trip, the
    profiles, the invites and its two inputs (`search`, `selectedUid`). */
module TargetSpeciesSidebar {
  import opened Wrappers
  import opened Types
  import Seqs
  import Profile

  /** The signed-in user; a display name may be missing, `null` or a string. */
  datatype User = User(uid: Option<string>, displayName: Profile.Field<string>)

  datatype ProfileEntry = ProfileEntry(id: string, lifelist: Option<seq<string>>)

  datatype Invite = Invite(name: Option<string>, email: Option<string>, uid: Option<string>)

  /** An entry of the "Targets for" menu. */
  datatype UserOption = UserOption(name: Option<string>, uid: Option<string>)

  /** Spreading `undefined` into an array literal throws. */
  datatype Thrown = TypeError

  /** `trip?.userIds?.[0]` */
  function FirstUserId(trip: Option<Trip>): Option<string> {
    if trip.Some? && trip.value.userIds.Some? && |trip.value.userIds.value| > 0
    then Some(trip.value.userIds.value[0]) else None
  }

  /** `user?.uid` */
  function UserUid(user: Option<User>): Option<string> {
    if user.Some? then user.value.uid else None
  }

  /** `myUid = user?.uid || trip?.userIds?.[0]` */
  function MyUid(user: Option<User>, trip: Option<Trip>): Option<string> {
    OrElse(UserUid(user), FirstUserId(trip))
  }

  /** `actualUid = selectedUid || myUid` */
  function ActualUid(selectedUid: string, user: Option<User>, trip: Option<Trip>): (r: Option<string>)
    ensures selectedUid != "" ==> r == Some(selectedUid)
    ensures selectedUid == "" && Truthy(UserUid(user)) ==> r == UserUid(user)
    ensures selectedUid == "" && !Truthy(UserUid(user)) ==> r == FirstUserId(trip)
  {
    OrElse(Some(selectedUid), MyUid(user, trip))
  }

  /** `profiles.find((it) => it.id === actualUid)?.lifelist || []` */
  function Lifelist(profiles: seq<ProfileEntry>, actualUid: Option<string>): (l: seq<string>)
    ensures (forall i :: 0 <= i < |profiles| ==> Some(profiles[i].id) != actualUid) ==> l == []
    ensures forall i :: 0 <= i < |profiles| && Some(profiles[i].id) == actualUid
                        && (forall j :: 0 <= j < i ==> Some(profiles[j].id) != actualUid)
                        ==> l == profiles[i].lifelist.GetOr([])
  {
    match Seqs.FindIndex(profiles, (p: ProfileEntry) => Some(p.id) == actualUid)
    case None => []
    case Some(k) => profiles[k].lifelist.GetOr([])
  }

  predicate NotOnLifelist(lifelist: seq<string>, t: Target) {
    t.code !in lifelist
  }

  /** `targets?.items?.filter((it) => !lifelist.includes(it.code)) || []` */
  function TargetSpecies(targets: Option<Targets>, lifelist: seq<string>): seq<Target> {
    if targets.Some? && targets.value.items.Some?
    then Seqs.Filter(targets.value.items.value, t => NotOnLifelist(lifelist, t))
    else []
  }

  function LowerChar(c: char): char {
    if 'A' <= c <= 'Z' then (c as int + 32) as char else c
  }

  /** `toLowerCase`, on ASCII letters only. */
  function Lower(s: string): (r: string)
    ensures |r| == |s|
  {
    seq(|s|, i requires 0 <= i < |s| => LowerChar(s[i]))
  }

  predicate MatchesSearch(search: string, t: Target) {
    Seqs.Contains(Lower(t.name), Lower(search))
  }

  /** `targetSpecies.filter((it) => it.name.toLowerCase().includes(search.toLowerCase()))` */
  function FilteredTargets(targetSpecies: seq<Target>, search: string): seq<Target> {
    Seqs.Filter(targetSpecies, t => MatchesSearch(search, t))
  }

  predicate HasUid(inv: Invite) {
    Truthy(inv.uid)
  }

  function InviteOption(inv: Invite): UserOption {
    UserOption(OrElse(inv.name, inv.email), inv.uid)
  }

  /** `invites?.filter(({ uid }) => !!uid).map(...)` */
  function InviteOptions(invites: Option<seq<Invite>>): (r: Option<seq<UserOption>>)
    ensures r.None? <==> invites.None?
  {
    match invites
    case None => None
    case Some(xs) =>
      var kept := Seqs.Filter(xs, HasUid);
      Some(seq(|kept|, i requires 0 <= i < |kept| => InviteOption(kept[i])))
  }

  /** `${user?.displayName}`, as a template literal prints it. */
  function DisplayName(user: Option<User>): (r: string)
    ensures user.None? || user.value.displayName.Missing? ==> r == "undefined"
    ensures user.Some? && user.value.displayName.Null? ==> r == "null"
    ensures user.Some? && user.value.displayName.Present? ==> r == user.value.displayName.value
  {
    match user
    case None => "undefined"
    case Some(u) =>
      match u.displayName
      case Missing => "undefined"
      case Null => "null"
      case Present(name) => name
  }

  /** `[{ name: `${user?.displayName} (me)`, uid: myUid }, ...inviteOptions]` */
  function Options(user: Option<User>, trip: Option<Trip>, invites: Option<seq<Invite>>): Result<seq<UserOption>, Thrown> {
    match InviteOptions(invites)
    case None => Err(TypeError)
    case Some(opts) => Ok([UserOption(Some(DisplayName(user) + " (me)"), MyUid(user, trip))] + opts)
  }

  /** `!targets?.items?.length` */
  predicate ShowImportTargets(targets: Option<Targets>) {
    targets.None? || targets.value.items.None? || |targets.value.items.value| == 0
  }

  /** `!user?.uid && (trip?.userIds?.length || 0) > 1` */
  predicate ShowOwnerNote(user: Option<User>, trip: Option<Trip>) {
    !Truthy(UserUid(user)) && trip.Some? && trip.value.userIds.Some? && |trip.value.userIds.value| > 1
  }

  /** Everything the block renders. */
  datatype View = View(
    actualUid: Option<string>,
    targetSpecies: seq<Target>,
    filteredTargets: seq<Target>,
    count: nat,
    options: seq<UserOption>,
    selected: Option<UserOption>,
    showOwnerNote: bool,
    showMenu: bool,
    showSearch: bool,
    showImportTargets: bool)

  /** The block's derivations; rendering throws when there are no invites. */
  function Block(search: string, selectedUid: string, targets: Option<Targets>, trip: Option<Trip>,
                 invites: Option<seq<Invite>>, profiles: seq<ProfileEntry>, user: Option<User>): Result<View, Thrown>
  {
    var actualUid := ActualUid(selectedUid, user, trip);
    var lifelist := Lifelist(profiles, actualUid);
    var targetSpecies := TargetSpecies(targets, lifelist);
    match Options(user, trip, invites)
    case Err(e) => Err(e)
    case Ok(options) =>
      Ok(View(
        actualUid,
        targetSpecies,
        FilteredTargets(targetSpecies, search),
        |targetSpecies|,
        options,
        Seqs.Find(options, (o: UserOption) => o.uid == actualUid),
        ShowOwnerNote(user, trip),
        |options| > 1,
        |targetSpecies| > 0,
        ShowImportTargets(targets)))
  }

  /** The target species are exactly the target items whose code is not on
      the lifelist, in their original order. */
  lemma TargetSpeciesSpec(targets: Option<Targets>, lifelist: seq<string>)
    ensures targets.None? || targets.value.items.None? ==> TargetSpecies(targets, lifelist) == []
    ensures targets.Some? && targets.value.items.Some? ==>
      var items := targets.value.items.value;
      var r := TargetSpecies(targets, lifelist);
      && Seqs.Subseq(r, items)
      && (forall i :: 0 <= i < |r| ==> r[i].code !in lifelist)
      && (forall i :: 0 <= i < |items| && items[i].code !in lifelist ==> items[i] in r)
      && (forall y :: multiset(r)[y] == if y.code !in lifelist then multiset(items)[y] else 0)
  {
    if targets.Some? && targets.value.items.Some? {
      var items := targets.value.items.value;
      var p := t => NotOnLifelist(lifelist, t);
      Seqs.FilterIsSubseq(items, p);
      forall y ensures multiset(TargetSpecies(targets, lifelist))[y] == if y.code !in lifelist then multiset(items)[y] else 0 {
        Seqs.FilterMultiset(items, p, y);
      }
    }
  }

  /** The filtered list is the subsequence of target species whose lowered
      name contains the lowered search; an empty search keeps them all. */
  lemma FilteredTargetsSpec(targetSpecies: seq<Target>, search: string)
    ensures Seqs.Subseq(FilteredTargets(targetSpecies, search), targetSpecies)
    ensures forall i :: 0 <= i < |FilteredTargets(targetSpecies, search)| ==>
              MatchesSearch(search, FilteredTargets(targetSpecies, search)[i])
    ensures forall i :: 0 <= i < |targetSpecies| && MatchesSearch(search, targetSpecies[i]) ==>
              targetSpecies[i] in FilteredTargets(targetSpecies, search)
    ensures forall y :: multiset(FilteredTargets(targetSpecies, search))[y] ==
              if MatchesSearch(search, y) then multiset(targetSpecies)[y] else 0
    ensures search == "" ==> FilteredTargets(targetSpecies, search) == targetSpecies
  {
    Seqs.FilterIsSubseq(targetSpecies, t => MatchesSearch(search, t));
    forall y ensures multiset(FilteredTargets(targetSpecies, search))[y] ==
                     if MatchesSearch(search, y) then multiset(targetSpecies)[y] else 0 {
      Seqs.FilterMultiset(targetSpecies, t => MatchesSearch(search, t), y);
    }
    if search == "" {
      forall i | 0 <= i < |targetSpecies| ensures MatchesSearch(search, targetSpecies[i]) {
        assert Lower(search) == [];
        Seqs.ContainsEmpty(Lower(targetSpecies[i].name));
      }
      Seqs.FilterKeepsAll(targetSpecies, t => MatchesSearch(search, t));
    }
  }

  /** Invites without a uid are dropped; each option is named by the invite's
      name, or its email when the name is empty. */
  lemma InviteOptionsSpec(invites: seq<Invite>)
    ensures var r := InviteOptions(Some(invites)).value;
      && |r| == |Seqs.Filter(invites, HasUid)|
      && (forall i :: 0 <= i < |r| ==> Truthy(r[i].uid))
      && (forall i :: 0 <= i < |r| ==> r[i].uid == Seqs.Filter(invites, HasUid)[i].uid)
      && (forall i :: 0 <= i < |r| ==> r[i].name == if Truthy(Seqs.Filter(invites, HasUid)[i].name)
                                                  then Seqs.Filter(invites, HasUid)[i].name
                                                  else Seqs.Filter(invites, HasUid)[i].email)
      && (forall i :: 0 <= i < |invites| && !HasUid(invites[i]) ==> invites[i] !in Seqs.Filter(invites, HasUid))
  {
  }

  /** The menu starts with the "(me)" entry for `myUid`, followed by one entry
      per invite that has a uid. */
  lemma OptionsSpec(user: Option<User>, trip: Option<Trip>, invites: seq<Invite>)
    ensures Options(user, trip, Some(invites)).Ok?
    ensures var opts := Options(user, trip, Some(invites)).value;
      && |opts| == 1 + |Seqs.Filter(invites, HasUid)|
      && opts[0].uid == MyUid(user, trip)
      && opts[0].name == Some(DisplayName(user) + " (me)")
      && opts[1..] == InviteOptions(Some(invites)).value
  {
  }

  /** A signed-in user whose display name is `null` is listed as "null (me)". */
  lemma NullDisplayNameOption(uid: string, trip: Option<Trip>, invites: seq<Invite>)
    ensures Options(Some(User(Some(uid), Profile.Null)), trip, Some(invites)).Ok?
    ensures Options(Some(User(Some(uid), Profile.Null)), trip, Some(invites)).value[0].name == Some("null (me)")
  {
    var user := Some(User(Some(uid), Profile.Null));
    OptionsSpec(user, trip, invites);
    assert DisplayName(user) == "null";
    assert "null" + " (me)" == "null (me)";
  }

  /** Without an invite list, building the menu throws. */
  lemma OptionsWithoutInvites(user: Option<User>, trip: Option<Trip>)
    ensures Options(user, trip, None) == Err(TypeError)
  {
  }

  /** The count shown is that of all target species, not of the filtered
      ones; the filtered list never exceeds it; "Import Targets" shows
      exactly when there are no target items. */
  lemma BlockSpec(search: string, selectedUid: string, targets: Option<Targets>, trip: Option<Trip>,
                  invites: seq<Invite>, profiles: seq<ProfileEntry>, user: Option<User>)
    ensures var r := Block(search, selectedUid, targets, trip, Some(invites), profiles, user);
      && r.Ok?
      && r.value.actualUid == ActualUid(selectedUid, user, trip)
      && r.value.targetSpecies == TargetSpecies(targets, Lifelist(profiles, ActualUid(selectedUid, user, trip)))
      && r.value.filteredTargets == FilteredTargets(r.value.targetSpecies, search)
      && r.value.options == Options(user, trip, Some(invites)).value
      && r.value.count == |r.value.targetSpecies|
      && |r.value.filteredTargets| <= r.value.count
      && Seqs.Subseq(r.value.filteredTargets, r.value.targetSpecies)
      && (r.value.showImportTargets <==> targets.None? || targets.value.items.None? || targets.value.items.value == [])
      && (r.value.showImportTargets ==> r.value.targetSpecies == [])
  {
    var actualUid := ActualUid(selectedUid, user, trip);
    var ts := TargetSpecies(targets, Lifelist(profiles, actualUid));
    OptionsSpec(user, trip, invites);
    FilteredTargetsSpec(ts, search);
  }
}
