/** The records shared by the trip screens: a saved hotspot, a trip, and a
    hotspot's downloaded target list. Optional fields are `Option`s;
    latitude and longitude are carried but never computed with. */
module Types {
  import opened Wrappers

  datatype Hotspot = Hotspot(
    id: string,
    name: string,
    lat: real,
    lng: real,
    species: Option<int>,
    notes: Option<string>,
    originalName: Option<string>,
    targetsId: Option<string>)

  datatype Trip = Trip(
    id: string,
    hotspots: seq<Hotspot>,
    region: Option<string>,
    startMonth: Option<int>,
    endMonth: Option<int>,
    userIds: Option<seq<string>>,
    ownerName: Option<string>)

  /** One species on a target list. */
  datatype Target = Target(code: string, name: string)

  /** A downloaded target record; `hotspotId` may be missing in raw data. */
  datatype Targets = Targets(id: Option<string>, hotspotId: Option<string>, items: Option<seq<Target>>)
}
