/** The three rewrites of a compose file before it is deployed: declaring the volumes it uses
    (app/services/app_catalog.py), routing its public service (app/services/edge.py) and capping
    every service (app/services/limits.py). A file is the document that YAML loading gives;
    maps compare without regard to key order, but services keep theirs. */
module Compose {
  import opened Text

  datatype Node =
    | Null
    | Bool(b: bool)
    | Number(n: real)
    | Str(s: string)
    | List(items: seq<Node>)
    | Dict(fields: map<string, Node>)

  datatype Entry = Entry(name: string, body: Node)

  /** The value under `services`. */
  datatype Section = Missing | NotMap(node: Node) | Services(entries: seq<Entry>)

  datatype Doc = Doc(services: Section, others: map<string, Node>)

  /** `str()`: a string is its own text, everything else is left open. */
  type Show = Node -> string

  ghost predicate ShowsStrings(show: Show) {
    forall s :: show(Str(s)) == s
  }

  predicate Truthy(n: Node) {
    match n
    case Null => false
    case Bool(b) => b
    case Number(x) => x != 0.0
    case Str(s) => s != ""
    case List(items) => items != []
    case Dict(fields) => fields != map[]
  }

  function Get(fields: map<string, Node>, key: string): Node {
    if key in fields then fields[key] else Null
  }

  const Empty := Dict(map[])

  /** `doc.get("services") or {}`; None where the code goes on to call a method that a list,
      a number or a string does not have. */
  function EntriesOf(doc: Doc): Option<seq<Entry>> {
    match doc.services
    case Missing => Some([])
    case NotMap(node) => if Truthy(node) then None else Some([])
    case Services(entries) => Some(entries)
  }

  // ------------------------------------------------------------ volumes

  /** The part before the first colon, stripped. */
  function SourceOf(entry: string): string {
    Strip(entry[..Find(entry, ':')])
  }

  /** `_referenced_volume_name` */
  function ReferencedVolumeName(entry: Node, show: Show): Option<string> {
    if entry.Dict? then
      if Get(entry.fields, "type") == Str("volume") && Truthy(Get(entry.fields, "source"))
      then Some(show(Get(entry.fields, "source"))) else None
    else if entry.Str? then
      var source := SourceOf(entry.s);
      if source != "" && source[0] !in {'/', '.', '~', '$'} then Some(source) else None
    else None
  }

  /** The names that the items of one `volumes:` value refer to; iterating a map gives its keys,
      iterating a string its characters, and a number cannot be iterated. */
  function NamesIn(volumes: Node, show: Show): Option<set<string>> {
    if !Truthy(volumes) then Some({})
    else match volumes
      case List(items) => Some(set i, name | 0 <= i < |items| && name in Named(items[i], show) :: name)
      case Dict(fields) => Some(set key, name | key in fields && name in Named(Str(key), show) :: name)
      case Str(s) => Some(set i, name | 0 <= i < |s| && name in Named(Str([s[i]]), show) :: name)
      case _ => None
  }

  function Named(entry: Node, show: Show): set<string> {
    var name := ReferencedVolumeName(entry, show);
    if name.Some? && name.value != "" then {name.value} else {}
  }

  function NamesOf(body: Node, show: Show): Option<set<string>> {
    if body.Dict? then NamesIn(Get(body.fields, "volumes"), show) else Some({})
  }

  function Referenced(entries: seq<Entry>, show: Show): Option<set<string>> {
    if entries == [] then Some({})
    else
      var before, last := Referenced(entries[..|entries| - 1], show), NamesOf(entries[|entries| - 1].body, show);
      if before.Some? && last.Some? then Some(before.value + last.value) else None
  }

  /** The declared map with an empty declaration for every missing name. */
  function Declare(declared: map<string, Node>, names: set<string>): map<string, Node> {
    (map name | name in names :: Empty) + declared
  }

  function DictOf(n: Node): map<string, Node> {
    if n.Dict? then n.fields else map[]
  }

  function Normalize(doc: Doc, show: Show): Option<Doc> {
    var entries := EntriesOf(doc);
    if entries.None? then None
    else
      var names := Referenced(entries.value, show);
      if names.None? then None
      else if names.value == {} then Some(doc)
      else Some(doc.(others := doc.others["volumes" := Dict(Declare(DictOf(Get(doc.others, "volumes")), names.value))]))
  }

  /** The loop over the services' volumes. */
  method CollectReferenced(entries: seq<Entry>, show: Show) returns (r: Option<set<string>>)
    ensures r == Referenced(entries, show)
  {
    var referenced: set<string> := {};
    for i := 0 to |entries|
      invariant Referenced(entries[..i], show) == Some(referenced)
    {
      assert entries[..i + 1][..i] == entries[..i];
      var names := NamesOf(entries[i].body, show);
      if names.None? {
        ReferencedFails(entries, show, i);
        return None;
      }
      referenced := referenced + names.value;
    }
    assert entries[..|entries|] == entries;
    return Some(referenced);
  }

  /** The loop that declares what is missing, in no particular order. */
  method DeclareMissing(start: map<string, Node>, referenced: set<string>) returns (declared: map<string, Node>)
    ensures declared == Declare(start, referenced)
  {
    declared := start;
    var left := referenced;
    while left != {}
      invariant left <= referenced
      invariant declared == Declare(start, referenced - left)
      decreases |left|
    {
      hide Declare;
      var name :| name in left;
      DeclareStep(start, referenced - left, name);
      assert referenced - (left - {name}) == (referenced - left) + {name};
      left := left - {name};
      if name !in declared {
        declared := declared[name := Empty];
      }
    }
    assert referenced - {} == referenced;
  }

  lemma DeclareStep(start: map<string, Node>, names: set<string>, name: string)
    ensures var declared := Declare(start, names);
            Declare(start, names + {name}) == if name in declared then declared else declared[name := Empty]
  {
  }

  /** `normalize_compose_for_engine` */
  method NormalizeComposeForEngine(doc: Doc, show: Show) returns (r: Option<Doc>)
    ensures r == Normalize(doc, show)
  {
    var services := EntriesOf(doc);
    if services.None? {
      return None;
    }
    var referenced := CollectReferenced(services.value, show);
    if referenced.None? {
      return None;
    }
    if referenced.value == {} {
      return Some(doc);
    }
    var declared := DeclareMissing(DictOf(Get(doc.others, "volumes")), referenced.value);
    return Some(doc.(others := doc.others["volumes" := Dict(declared)]));
  }

  lemma {:induction false} ReferencedFails(entries: seq<Entry>, show: Show, i: nat)
    requires i < |entries| && NamesOf(entries[i].body, show).None?
    ensures Referenced(entries, show).None?
  {
    if i < |entries| - 1 {
      ReferencedFails(entries[..|entries| - 1], show, i);
    }
  }

  // ------------------------------------------------------------ edge

  /** Settings, and what is known about the stack. */
  datatype Edge = Edge(network: string, domain: string, project: string, port: string, extraHosts: seq<string>)

  predicate Enabled(e: Edge) {
    e.network != "" && e.domain != ""
  }

  /** The two sides of `text.partition("=")`, stripped. */
  function LabelKey(text: string): string {
    Strip(text[..Find(text, '=')])
  }

  function LabelValue(text: string): string {
    var k := Find(text, '=');
    Strip(if k < |text| then text[k + 1..] else "")
  }

  /** `_labels_to_dict` for the list form: "k=v" or "k", later items winning. */
  function LabelList(items: seq<Node>, show: Show): map<string, string> {
    if items == [] then map[]
    else
      var text := show(items[|items| - 1]);
      LabelList(items[..|items| - 1], show)[LabelKey(text) := LabelValue(text)]
  }

  function LabelMap(labels: Node, show: Show): map<string, string> {
    match labels
    case Dict(fields) => map k | k in fields :: if fields[k].Null? then "" else show(fields[k])
    case List(items) => LabelList(items, show)
    case _ => map[]
  }

  method LabelsToDict(labels: Node, show: Show) returns (result: map<string, string>)
    ensures result == LabelMap(labels, show)
  {
    if labels.Dict? {
      return map k | k in labels.fields :: if labels.fields[k].Null? then "" else show(labels.fields[k]);
    }
    result := map[];
    if labels.List? {
      for i := 0 to |labels.items|
        invariant result == LabelList(labels.items[..i], show)
      {
        hide LabelKey, LabelValue;
        var text := show(labels.items[i]);
        assert labels.items[..i + 1][..i] == labels.items[..i];
        result := result[LabelKey(text) := LabelValue(text)];
      }
      assert labels.items[..|labels.items|] == labels.items;
    }
  }

  /** `_networks_with` */
  function NetworksWith(networks: Node, name: string): Node {
    if networks.Dict? then
      if name in networks.fields then networks else Dict(networks.fields[name := Empty])
    else
      var items := if networks.List? && networks.items != [] then networks.items else [Str("default")];
      if Str(name) in items then List(items) else List(items + [Str(name)])
  }

  const Marker := "SERVICE_FQDN_"

  /** Whether an environment names the public service's variable; None where joining a list
      that is not all strings raises. */
  function MentionsFqdn(environment: Node, show: Show): Option<bool> {
    if environment.List? then
      if forall i :: 0 <= i < |environment.items| ==> environment.items[i].Str? then
        var items := environment.items;
        Some(Contains(Join(seq(|items|, i requires 0 <= i < |items| => items[i].s), ' '), Marker))
      else None
    else if environment.Dict? then
      Some(exists k :: k in environment.fields && Contains(k + "=" + show(environment.fields[k]), Marker))
    else Some(false)
  }

  function Public(body: Node, show: Show): Option<bool> {
    if body.Dict? then MentionsFqdn(Get(body.fields, "environment"), show) else Some(false)
  }

  /** Index of the first service whose environment has the marker, or |entries|. */
  function FirstMarked(entries: seq<Entry>, show: Show): Option<nat> {
    if entries == [] then Some(0)
    else
      var here := Public(entries[0].body, show);
      if here.None? then None
      else if here.value then Some(0)
      else
        var rest := FirstMarked(entries[1..], show);
        if rest.None? then None else Some(rest.value + 1)
  }

  function FirstDict(entries: seq<Entry>): (i: nat)
    ensures i <= |entries|
    ensures i < |entries| ==> entries[i].body.Dict?
  {
    if entries == [] then 0 else if entries[0].body.Dict? then 0 else FirstDict(entries[1..]) + 1
  }

  lemma {:induction false} MarkedIsDict(entries: seq<Entry>, show: Show)
    requires FirstMarked(entries, show).Some?
    ensures FirstMarked(entries, show).value <= |entries|
    ensures FirstMarked(entries, show).value < |entries| ==> entries[FirstMarked(entries, show).value].body.Dict?
  {
    if entries != [] && !Public(entries[0].body, show).value {
      MarkedIsDict(entries[1..], show);
    }
  }

  /** `_public_service`: the index of the service to route, or |entries| when there is none. */
  function PublicService(entries: seq<Entry>, show: Show): (chosen: Option<nat>)
    ensures chosen.Some? ==> chosen.value <= |entries|
    ensures chosen.Some? && chosen.value < |entries| ==> entries[chosen.value].body.Dict?
  {
    var marked := FirstMarked(entries, show);
    if marked.None? then None
    else
      MarkedIsDict(entries, show);
      if marked.value < |entries| then marked else Some(FirstDict(entries))
  }

  function NonEmptyHosts(hosts: seq<string>): seq<string> {
    if hosts == [] then [] else (if hosts[0] == "" then [] else ["http://" + hosts[0]]) + NonEmptyHosts(hosts[1..])
  }

  function JoinAddresses(addresses: seq<string>): string {
    if addresses == [] then ""
    else if |addresses| == 1 then addresses[0]
    else addresses[0] + ", " + JoinAddresses(addresses[1..])
  }

  function Addresses(e: Edge): string {
    JoinAddresses(["http://" + e.project + "." + e.domain] + NonEmptyHosts(e.extraHosts))
  }

  function Upstream(e: Edge): string {
    if e.port != "" then "{{upstreams " + e.port + "}}" else "{{upstreams}}"
  }

  function Strings(m: map<string, string>): map<string, Node> {
    map k | k in m :: Str(m[k])
  }

  /** The labels of the routed service. */
  function RoutedLabels(labels: Node, e: Edge, show: Show): Node {
    Dict(Strings(LabelMap(labels, show)["tetra" := Addresses(e)]["tetra.reverse_proxy" := Upstream(e)]))
  }

  function Route(fields: map<string, Node>, e: Edge, show: Show): map<string, Node> {
    fields["labels" := RoutedLabels(Get(fields, "labels"), e, show)]
          ["networks" := NetworksWith(Get(fields, "networks"), e.network)]
  }

  const External := Dict(map["external" := Bool(true)])

  function WithEdgeNetwork(others: map<string, Node>, e: Edge): map<string, Node> {
    others["networks" := Dict(DictOf(Get(others, "networks"))[e.network := External])]
  }

  function RouteEntry(entries: seq<Entry>, i: nat, e: Edge, show: Show): seq<Entry>
    requires i < |entries| && entries[i].body.Dict?
  {
    entries[i := entries[i].(body := Dict(Route(entries[i].body.fields, e, show)))]
  }

  /** `apply_edge` on a loaded document. */
  function ApplyEdge(doc: Doc, e: Edge, show: Show): Option<Doc> {
    if !Enabled(e) then Some(doc)
    else
      var entries := EntriesOf(doc);
      if entries.None? then None
      else
        var chosen := PublicService(entries.value, show);
        if chosen.None? then None
        else if chosen.value >= |entries.value| then Some(doc)
        else
          Some(Doc(Services(RouteEntry(entries.value, chosen.value, e, show)), WithEdgeNetwork(doc.others, e)))
  }

  method ApplyEdgeInPlace(doc: Doc, e: Edge, show: Show) returns (r: Option<Doc>)
    ensures r == ApplyEdge(doc, e, show)
  {
    if !Enabled(e) {
      return Some(doc);
    }
    var services := EntriesOf(doc);
    if services.None? {
      return None;
    }
    var entries := services.value;
    var chosen := PublicService(entries, show);
    if chosen.None? {
      return None;
    }
    if chosen.value >= |entries| {
      return Some(doc);
    }
    var i := chosen.value;
    var svc := entries[i].body.fields;
    var networks := Get(svc, "networks");
    var labels := LabelsToDict(Get(svc, "labels"), show);
    labels := labels["tetra" := Addresses(e)];
    labels := labels["tetra.reverse_proxy" := Upstream(e)];
    svc := svc["labels" := Dict(Strings(labels))];
    svc := svc["networks" := NetworksWith(networks, e.network)];
    entries := entries[i := entries[i].(body := Dict(svc))];
    var top := DictOf(Get(doc.others, "networks"));
    top := top[e.network := External];
    return Some(Doc(Services(entries), doc.others["networks" := Dict(top)]));
  }

  // ------------------------------------------------------------ limits

  datatype Limits = Limits(cpu: nat, mem: nat, pids: nat)

  function CapCpu(fields: map<string, Node>, l: Limits): map<string, Node> {
    if l.cpu != 0 && "cpus" !in fields && "cpu_count" !in fields
    then fields["cpus" := Number(l.cpu as real / 1000.0)] else fields
  }

  function CapMem(fields: map<string, Node>, l: Limits): map<string, Node> {
    if l.mem != 0 && "mem_limit" !in fields then fields["mem_limit" := Str(Dec(l.mem) + "m")] else fields
  }

  function CapPids(fields: map<string, Node>, l: Limits): map<string, Node> {
    if l.pids != 0 && "pids_limit" !in fields then fields["pids_limit" := Number(l.pids as real)] else fields
  }

  function Cap(body: Node, l: Limits): Node {
    if body.Dict? then Dict(CapPids(CapMem(CapCpu(body.fields, l), l), l)) else body
  }

  function CapAll(entries: seq<Entry>, l: Limits): (capped: seq<Entry>)
    ensures |capped| == |entries|
  {
    seq(|entries|, i requires 0 <= i < |entries| => entries[i].(body := Cap(entries[i].body, l)))
  }

  function ApplyLimits(doc: Doc, l: Limits): Doc {
    if doc.services.Services? then doc.(services := Services(CapAll(doc.services.entries, l))) else doc
  }

  /** `apply_resource_limits`: set what is missing in each service. */
  method ApplyResourceLimits(doc: Doc, l: Limits) returns (r: Doc)
    ensures r == ApplyLimits(doc, l)
  {
    if !doc.services.Services? {
      return doc;
    }
    var entries := doc.services.entries;
    for i := 0 to |entries|
      invariant |entries| == |doc.services.entries|
      invariant entries[..i] == CapAll(doc.services.entries, l)[..i]
      invariant entries[i..] == doc.services.entries[i..]
    {
      assert entries[i] == entries[i..][0] == doc.services.entries[i];
      if entries[i].body.Dict? {
        var svc := entries[i].body.fields;
        if l.cpu != 0 && "cpus" !in svc && "cpu_count" !in svc {
          svc := svc["cpus" := Number(l.cpu as real / 1000.0)];
        }
        if l.mem != 0 && "mem_limit" !in svc {
          svc := svc["mem_limit" := Str(Dec(l.mem) + "m")];
        }
        if l.pids != 0 && "pids_limit" !in svc {
          svc := svc["pids_limit" := Number(l.pids as real)];
        }
        entries := entries[i := entries[i].(body := Dict(svc))];
      }
    }
    assert entries == CapAll(doc.services.entries, l);
    return doc.(services := Services(entries));
  }
}
