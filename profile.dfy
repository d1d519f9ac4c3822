/** The profile provider: a user's lifelist, search radius and address,
    held in local state and written through to the profile store. The
    store calls are returned as `Write` values; their results are not
    modelled. */
module Profile {
  import opened Wrappers
  import Seqs

  /** An address; `text` is the source's `label`, a reserved word here. */
  datatype Address = Address(text: string, lat: real, lng: real)

  /** The provider's `state`; `None` is a field that is `undefined` or `null`. */
  datatype Profile = Profile(lifelist: Option<seq<string>>, radius: Option<int>, address: Option<Address>)

  /** A field of a fetched profile document: absent, stored as `null`, or set. */
  datatype Field<T> = Missing | Null | Present(value: T)

  datatype Fetched = Fetched(lifelist: Field<seq<string>>, radius: Field<int>, address: Field<Address>)

  /** The write each updater issues after changing local state. */
  datatype Write =
    | SetLifelistValue(lifelist: seq<string>)
    | AppendToLifelist(code: string)
    | RemoveFromLifelist(code: string)
    | SetRadiusValue(radius: int)
    | SetAddressValue(address: Address)

  /** A throwing updater: `lifelist` is not an array. */
  datatype Thrown = TypeError

  const DefaultRadius: int := 50

  const InitialState: Profile := Profile(Some([]), Some(DefaultRadius), None)

  /** `{ ...state, lifelist }` */
  function WithLifelist(s: Profile, lifelist: seq<string>): Profile {
    s.(lifelist := Some(lifelist))
  }

  /** `{ ...state, lifelist: [...state.lifelist, speciesCode] }` */
  function Appended(s: Profile, code: string): Result<Profile, Thrown> {
    match s.lifelist
    case None => Err(TypeError)
    case Some(l) => Ok(s.(lifelist := Some(l + [code])))
  }

  /** `{ ...state, lifelist: state.lifelist.filter((c) => c !== speciesCode) }` */
  function Removed(s: Profile, code: string): Result<Profile, Thrown> {
    match s.lifelist
    case None => Err(TypeError)
    case Some(l) => Ok(s.(lifelist := Some(Seqs.RemoveAll(l, code))))
  }

  /** `{ ...state, radius }` */
  function WithRadius(s: Profile, radius: int): Profile {
    s.(radius := Some(radius))
  }

  /** `{ ...state, address }` */
  function WithAddress(s: Profile, address: Address): Profile {
    s.(address := Some(address))
  }

  /** One field of `{ ...prev, ...profile }`. */
  function Override<T>(prev: Option<T>, f: Field<T>): Option<T> {
    match f
    case Missing => prev
    case Null => None
    case Present(v) => Some(v)
  }

  /** `{ ...prev, ...profile }`: the fetched profile's fields win. */
  function Merged(prev: Profile, p: Fetched): Profile {
    Profile(Override(prev.lifelist, p.lifelist), Override(prev.radius, p.radius), Override(prev.address, p.address))
  }

  /** `state.lifelist || []` */
  function ExposedLifelist(s: Profile): (l: seq<string>)
    ensures s.lifelist.None? ==> l == []
    ensures s.lifelist.Some? ==> l == s.lifelist.value
  {
    s.lifelist.GetOr([])
  }

  /** `state.radius || 50` */
  function ExposedRadius(s: Profile): (r: int)
    ensures r != 0
    ensures s.radius == None || s.radius == Some(0) ==> r == DefaultRadius
    ensures s.radius.Some? && s.radius.value != 0 ==> r == s.radius.value
  {
    match s.radius
    case Some(r) => if r != 0 then r else DefaultRadius
    case None => DefaultRadius
  }

  /** The context value the provider exposes. */
  datatype Exposed = Exposed(lifelist: seq<string>, radius: int, address: Option<Address>, initialized: bool)

  class ProfileProvider {
    var state: Profile
    var initialized: bool

    constructor ()
      ensures state == InitialState && !initialized
    {
      state := InitialState;
      initialized := false;
    }

    /** The effect run when `uid` changes: a truthy uid marks the provider
        initialized at once and starts the profile fetch; the state is
        untouched until the fetch resolves. */
    method OnUid(uid: Option<string>) returns (fetchStarted: bool)
      modifies this`initialized
      ensures fetchStarted == Truthy(uid)
      ensures initialized == (old(initialized) || Truthy(uid))
    {
      fetchStarted := Truthy(uid);
      if fetchStarted {
        initialized := true;
      }
    }

    /** The fetch resolved: a profile, if one came back, is merged in. */
    method OnFetched(profile: Option<Fetched>)
      modifies this`state
      ensures state == if profile.Some? then Merged(old(state), profile.value) else old(state)
    {
      if profile.Some? {
        state := Merged(state, profile.value);
      }
    }

    method SetLifelist(lifelist: seq<string>) returns (w: Write)
      modifies this`state
      ensures state == WithLifelist(old(state), lifelist)
      ensures w == SetLifelistValue(lifelist)
    {
      state := WithLifelist(state, lifelist);
      w := SetLifelistValue(lifelist);
    }

    /** When the updater throws, the state stays as it was and `failed` says so. */
    method AppendLifelist(code: string) returns (w: Write, failed: bool)
      modifies this`state
      ensures failed == Appended(old(state), code).Err?
      ensures state == if failed then old(state) else Appended(old(state), code).value
      ensures w == AppendToLifelist(code)
    {
      var r := Appended(state, code);
      failed := r.Err?;
      if !failed {
        state := r.value;
      }
      w := AppendToLifelist(code);
    }

    /** When the updater throws, the state stays as it was and `failed` says so. */
    method RemoveLifelist(code: string) returns (w: Write, failed: bool)
      modifies this`state
      ensures failed == Removed(old(state), code).Err?
      ensures state == if failed then old(state) else Removed(old(state), code).value
      ensures w == RemoveFromLifelist(code)
    {
      var r := Removed(state, code);
      failed := r.Err?;
      if !failed {
        state := r.value;
      }
      w := RemoveFromLifelist(code);
    }

    method SetRadius(radius: int) returns (w: Write)
      modifies this`state
      ensures state == WithRadius(old(state), radius)
      ensures w == SetRadiusValue(radius)
    {
      state := WithRadius(state, radius);
      w := SetRadiusValue(radius);
    }

    method SetAddress(address: Address) returns (w: Write)
      modifies this`state
      ensures state == WithAddress(old(state), address)
      ensures w == SetAddressValue(address)
    {
      state := WithAddress(state, address);
      w := SetAddressValue(address);
    }

    /** The provider's context value, with the defaults filled in. */
    function Value(): (v: Exposed)
      reads this
      ensures v.radius != 0
      ensures v.lifelist == ExposedLifelist(state) && v.radius == ExposedRadius(state)
      ensures v.address == state.address && v.initialized == initialized
    {
      Exposed(ExposedLifelist(state), ExposedRadius(state), state.address, initialized)
    }
  }

  /** The initial state has an empty lifelist, radius 50 and no address, and
      exposes exactly those values. */
  lemma InitialStateExposed()
    ensures InitialState.lifelist == Some([]) && InitialState.radius == Some(50) && InitialState.address == None
    ensures ExposedLifelist(InitialState) == [] && ExposedRadius(InitialState) == 50
  {
  }

  /** Appending puts the code at the end, even when it is already there, and
      changes no other field. */
  lemma AppendedSpec(s: Profile, code: string)
    ensures Appended(s, code).Ok? <==> s.lifelist.Some?
    ensures s.lifelist.Some? ==>
      var r := Appended(s, code).value;
      && r.lifelist == Some(s.lifelist.value + [code])
      && multiset(r.lifelist.value)[code] == multiset(s.lifelist.value)[code] + 1
      && r.radius == s.radius && r.address == s.address
  {
  }

  /** Removing drops every occurrence of the code, keeps the order of the
      rest, and changes no other field. */
  lemma RemovedSpec(s: Profile, code: string)
    ensures Removed(s, code).Ok? <==> s.lifelist.Some?
    ensures s.lifelist.Some? ==>
      var r := Removed(s, code).value;
      && r.lifelist.Some?
      && code !in r.lifelist.value
      && Seqs.Subseq(r.lifelist.value, s.lifelist.value)
      && multiset(r.lifelist.value) == multiset(s.lifelist.value)[code := 0]
      && r.radius == s.radius && r.address == s.address
  {
    if s.lifelist.Some? {
      Seqs.RemoveAllSpec(s.lifelist.value, code);
    }
  }

  /** Appending a code that is not on the lifelist and then removing it
      gives back the state. */
  lemma AppendThenRemove(s: Profile, code: string)
    requires s.lifelist.Some? && code !in s.lifelist.value
    ensures Appended(s, code).Ok?
    ensures Removed(Appended(s, code).value, code) == Ok(s)
  {
    Seqs.RemoveAppended(s.lifelist.value, code);
  }

  /** Each setter changes its own field only. */
  lemma SettersChangeOneField(s: Profile, l: seq<string>, r: int, a: Address)
    ensures WithLifelist(s, l).lifelist == Some(l) && WithLifelist(s, l).radius == s.radius && WithLifelist(s, l).address == s.address
    ensures WithRadius(s, r).radius == Some(r) && WithRadius(s, r).lifelist == s.lifelist && WithRadius(s, r).address == s.address
    ensures WithAddress(s, a).address == Some(a) && WithAddress(s, a).lifelist == s.lifelist && WithAddress(s, a).radius == s.radius
  {
  }

  /** A merged profile takes every field the fetched profile carries and
      keeps the previous value of every other; merging again changes nothing. */
  lemma MergedSpec(prev: Profile, p: Fetched)
    ensures p.lifelist.Missing? ==> Merged(prev, p).lifelist == prev.lifelist
    ensures p.lifelist.Null? ==> Merged(prev, p).lifelist == None
    ensures p.lifelist.Present? ==> Merged(prev, p).lifelist == Some(p.lifelist.value)
    ensures p.radius.Missing? ==> Merged(prev, p).radius == prev.radius
    ensures p.radius.Null? ==> Merged(prev, p).radius == None
    ensures p.radius.Present? ==> Merged(prev, p).radius == Some(p.radius.value)
    ensures p.address.Missing? ==> Merged(prev, p).address == prev.address
    ensures p.address.Null? ==> Merged(prev, p).address == None
    ensures p.address.Present? ==> Merged(prev, p).address == Some(p.address.value)
    ensures Merged(Merged(prev, p), p) == Merged(prev, p)
  {
  }

  /** A fetched radius of 0, or a lifelist stored as `null`, is overridden
      by the defaults on exposure. */
  lemma MergedDefaults(prev: Profile, p: Fetched)
    ensures p.radius == Present(0) || p.radius == Null ==> ExposedRadius(Merged(prev, p)) == DefaultRadius
    ensures p.lifelist == Null ==> ExposedLifelist(Merged(prev, p)) == []
  {
  }
}
