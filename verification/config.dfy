/**
 * The configured data sources, publish targets and connections, and the
 * by-name lookups the packages perform over them. A Go struct that is not
 * found stays at its zero value, which `ZeroTarget` and `ZeroDatasource` model.
 */
module Config {
  import opened Common

  datatype Target = Target(
    name: string,
    platform: string,
    pat: string,
    instanceUrl: string,
    username: string,
    accessToken: string,
    accountId: string)

  datatype Datasource = Datasource(name: string, feedUrl: string, itemType: string)

  datatype Connection = Connection(
    name: string,
    sourceName: string,
    targetName: string,
    caption: string,
    cron: Option<string>)

  const ZeroTarget := Target("", "", "", "", "", "", "")
  const ZeroDatasource := Datasource("", "", "")

  /** The first target called `name`, or the zero target when there is none. */
  function TargetNamed(targets: seq<Target>, name: string): (t: Target)
    ensures t != ZeroTarget ==> t in targets && t.name == name
    ensures (exists i :: 0 <= i < |targets| && targets[i].name == name) ==>
              exists i :: 0 <= i < |targets| && t == targets[i] &&
                forall j :: 0 <= j < i ==> targets[j].name != name
    ensures (forall i :: 0 <= i < |targets| ==> targets[i].name != name) ==> t == ZeroTarget
  {
    match FirstIndex(targets, (t: Target) => t.name == name)
    case Some(i) => targets[i]
    case None => ZeroTarget
  }

  /** The first data source called `name`, or the zero data source. */
  function DatasourceNamed(sources: seq<Datasource>, name: string): (d: Datasource)
    ensures d != ZeroDatasource ==> d in sources && d.name == name
    ensures (exists i :: 0 <= i < |sources| && sources[i].name == name) ==>
              exists i :: 0 <= i < |sources| && d == sources[i] &&
                forall j :: 0 <= j < i ==> sources[j].name != name
    ensures (forall i :: 0 <= i < |sources| ==> sources[i].name != name) ==> d == ZeroDatasource
  {
    match FirstIndex(sources, (d: Datasource) => d.name == name)
    case Some(i) => sources[i]
    case None => ZeroDatasource
  }

  /** The first target publishing to `platform`, if any. */
  function TargetForPlatform(targets: seq<Target>, platform: string): (r: Option<Target>)
    ensures r.Some? ==> r.value in targets && r.value.platform == platform
    ensures r.None? <==> forall i :: 0 <= i < |targets| ==> targets[i].platform != platform
    ensures r.Some? ==>
              (exists i :: 0 <= i < |targets| && r.value == targets[i] &&
                 forall j :: 0 <= j < i ==> targets[j].platform != platform)
  {
    match FirstIndex(targets, (t: Target) => t.platform == platform)
    case Some(i) => Some(targets[i])
    case None => None
  }
}
