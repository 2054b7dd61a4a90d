/** What the compose rewrites promise, alone and together (app/modules/apps/service.py runs
    them in the order volumes, edge, limits). */
module ComposePipeline {
  import opened Text
  import opened Compose

  /** Two maps agree at a key: the same value, or both none. */
  ghost predicate SameAt(a: map<string, Node>, b: map<string, Node>, key: string) {
    (key in a <==> key in b) && (key in a ==> a[key] == b[key])
  }

  // ------------------------------------------------------------ volumes

  /** Every volume a service refers to is declared afterwards; a declaration that was there is
      kept as it was; nothing else in the document changes. */
  lemma VolumesEndUpDeclared(doc: Doc, show: Show)
    requires Normalize(doc, show).Some?
    ensures var after := Normalize(doc, show).value;
            var names := Referenced(EntriesOf(doc).value, show).value;
            var was, now := DictOf(Get(doc.others, "volumes")), DictOf(Get(after.others, "volumes"));
            && names <= now.Keys
            && now.Keys == was.Keys + names
            && (forall v :: v in was ==> now[v] == was[v])
            && after.services == doc.services
            && (forall key :: key != "volumes" ==> SameAt(doc.others, after.others, key))
  {
  }

  /** A name that a mount can have: something, trimmed, without a colon, and not a path. */
  ghost predicate IsVolumeName(name: string) {
    name != "" && Trimmed(name) && ':' !in name && name[0] !in {'/', '.', '~', '$'}
  }

  /** The short form of a mount: its text up to the first colon is the name, but for whitespace
      around it. */
  ghost predicate ShortMount(text: string, name: string) {
    IsVolumeName(name) && exists k, i :: IsSource(text, name, k, i)
  }

  ghost predicate IsSource(text: string, name: string, k: nat, i: nat) {
    && k <= |text| && ':' !in text[..k] && (k < |text| ==> text[k] == ':')
    && IsCore(text[..k], name, i)
  }

  /** The long form: type volume, and a source. */
  ghost predicate LongMount(fields: map<string, Node>, name: string, show: Show) {
    && "type" in fields && fields["type"] == Str("volume")
    && "source" in fields && Truthy(fields["source"]) && show(fields["source"]) == name
    && name != ""
  }

  ghost predicate Mounts(item: Node, name: string, show: Show) {
    || (item.Str? && ShortMount(item.s, name))
    || (item.Dict? && LongMount(item.fields, name, show))
  }

  /** What a service lists under `volumes`: items of a list, keys of a map, characters of a
      string. */
  ghost predicate Lists(body: Node, item: Node) {
    body.Dict? && "volumes" in body.fields &&
    match body.fields["volumes"]
    case List(items) => item in items
    case Dict(fields) => item.Str? && item.s in fields
    case Str(s) => item.Str? && |item.s| == 1 && item.s[0] in s
    case _ => false
  }

  ghost predicate UsedBy(entries: seq<Entry>, name: string, show: Show) {
    exists i, item :: 0 <= i < |entries| && Lists(entries[i].body, item) && Mounts(item, name, show)
  }

  lemma ShortExactly(text: string, name: string, show: Show)
    ensures name in Named(Str(text), show) <==> ShortMount(text, name)
  {
    hide Strip, IsCore, Trimmed;
    var k := Find(text, ':');
    var source := Strip(text[..k]);
    var i := StripIsCore(text[..k]);
    assert ':' !in source by {
      CoreChars(text[..k], source, i);
    }
    if name in Named(Str(text), show) {
      assert IsSource(text, source, k, i);
    }
    if ShortMount(text, name) {
      var l, j :| IsSource(text, name, l, j);
      FirstColon(text, l);
      StripExactly(text[..k], name);
    }
  }

  lemma CoreChars(s: string, core: string, i: nat)
    requires IsCore(s, core, i)
    ensures forall c :: c in core ==> c in s
  {
    assert forall j :: 0 <= j < |core| ==> core[j] == s[i + j];
  }

  lemma FirstColon(text: string, k: nat)
    requires k <= |text| && ':' !in text[..k] && (k < |text| ==> text[k] == ':')
    ensures Find(text, ':') == k
  {
    if k < |text| {
      assert forall j :: 0 <= j < k ==> text[j] == text[..k][j];
      FindFirst(text, k, ':');
    } else {
      assert text[..k] == text;
    }
  }

  lemma MountsExactly(item: Node, name: string, show: Show)
    ensures name in Named(item, show) <==> Mounts(item, name, show)
  {
    if item.Str? {
      ShortExactly(item.s, name, show);
    }
  }

  lemma NamesExactly(body: Node, name: string, show: Show)
    requires NamesOf(body, show).Some?
    ensures name in NamesOf(body, show).value <==> exists item :: Lists(body, item) && Mounts(item, name, show)
  {
    hide Named, Mounts;
    forall item
      ensures name in Named(item, show) <==> Mounts(item, name, show)
    {
      MountsExactly(item, name, show);
    }
    if body.Dict? && "volumes" in body.fields {
      var volumes := body.fields["volumes"];
      if volumes.Str? {
        CharacterItems(volumes.s, name, show);
      } else if volumes.Dict? {
        assert forall key :: key in volumes.fields ==> Lists(body, Str(key));
      }
    }
  }

  lemma CharacterItems(s: string, name: string, show: Show)
    ensures (exists i :: 0 <= i < |s| && name in Named(Str([s[i]]), show)) <==>
            exists t: string :: |t| == 1 && t[0] in s && name in Named(Str(t), show)
  {
    hide Named;
    if t: string :| |t| == 1 && t[0] in s && name in Named(Str(t), show) {
      var i :| 0 <= i < |s| && s[i] == t[0];
      assert t == [s[i]];
    }
    if i :| 0 <= i < |s| && name in Named(Str([s[i]]), show) {
      assert [s[i]][0] in s;
    }
  }

  lemma {:induction false} ReferencedExactly(entries: seq<Entry>, name: string, show: Show)
    requires Referenced(entries, show).Some?
    ensures name in Referenced(entries, show).value <==> UsedBy(entries, name, show)
  {
    hide NamesOf, Lists, Mounts;
    if entries != [] {
      var front, last := entries[..|entries| - 1], entries[|entries| - 1];
      ReferencedExactly(front, name, show);
      NamesExactly(last.body, name, show);
      if i, item :| 0 <= i < |front| && Lists(front[i].body, item) && Mounts(item, name, show) {
        assert Lists(entries[i].body, item);
      }
      if i, item :| 0 <= i < |entries| && Lists(entries[i].body, item) && Mounts(item, name, show) {
        assert i < |front| ==> front[i] == entries[i];
      }
    }
  }

  /** Said of the file alone: a volume is declared afterwards if, and only if, it was declared
      before or some service mounts it by name. Paths and mounts of another type add nothing. */
  lemma VolumesExactly(doc: Doc, name: string, show: Show)
    requires Normalize(doc, show).Some?
    ensures name in DictOf(Get(Normalize(doc, show).value.others, "volumes")) <==>
            name in DictOf(Get(doc.others, "volumes")) || UsedBy(EntriesOf(doc).value, name, show)
  {
    hide UsedBy;
    VolumesEndUpDeclared(doc, show);
    ReferencedExactly(EntriesOf(doc).value, name, show);
  }

  /** The names a service refers to depend on its `volumes` alone. */
  lemma {:induction false} SameReferences(a: seq<Entry>, b: seq<Entry>, show: Show)
    requires |a| == |b|
    requires forall i :: 0 <= i < |a| ==> NamesOf(a[i].body, show) == NamesOf(b[i].body, show)
    ensures Referenced(a, show) == Referenced(b, show)
  {
    if a != [] {
      SameReferences(a[..|a| - 1], b[..|b| - 1], show);
    }
  }

  /** A document whose referenced volumes are all declared is left alone. */
  lemma NormalizeFixed(doc: Doc, show: Show)
    requires EntriesOf(doc).Some? && Referenced(EntriesOf(doc).value, show).Some?
    requires Referenced(EntriesOf(doc).value, show).value <= DictOf(Get(doc.others, "volumes")).Keys
    ensures Normalize(doc, show) == Some(doc)
  {
    var names, declared := Referenced(EntriesOf(doc).value, show).value, DictOf(Get(doc.others, "volumes"));
    assert Declare(declared, names) == declared;
    if names != {} {
      assert doc.others["volumes" := Dict(declared)] == doc.others;
    }
  }

  lemma NormalizeIsIdempotent(doc: Doc, show: Show)
    requires Normalize(doc, show).Some?
    ensures Normalize(Normalize(doc, show).value, show) == Normalize(doc, show)
  {
    VolumesEndUpDeclared(doc, show);
    NormalizeFixed(Normalize(doc, show).value, show);
  }

  // ------------------------------------------------------------ edge

  /** The networks that compose attaches a service to: with none given, be it no value, an empty
      list or an empty map, the default network. */
  ghost function Attached(networks: Node): set<Node> {
    if networks.Dict? && networks.fields != map[] then set k | k in networks.fields :: Str(k)
    else if networks.List? && networks.items != [] then set x | x in networks.items
    else {Str("default")}
  }

  /** The edge network is added to what was given; an empty map gives nothing to add it to. */
  lemma NetworksOfRouted(networks: Node, name: string)
    ensures Attached(NetworksWith(networks, name))
         == (if networks == Dict(map[]) then {} else Attached(networks)) + {Str(name)}
  {
    var after := NetworksWith(networks, name);
    if networks.Dict? {
      assert name in after.fields;
      forall n | n in Attached(networks) && networks != Dict(map[])
        ensures n in Attached(after)
      {
        var k :| k in networks.fields && n == Str(k);
        assert k in after.fields;
      }
    }
  }

  /** The routed service keeps all its networks except in one case: an empty network map, where
      only the edge network is left. */
  lemma KeepsNetworksExactly(networks: Node, name: string)
    ensures Attached(networks) <= Attached(NetworksWith(networks, name))
       <==> networks != Dict(map[]) || name == "default"
    ensures Str(name) in Attached(NetworksWith(networks, name))
  {
    NetworksOfRouted(networks, name);
    if networks == Dict(map[]) {
      assert Str("default") in Attached(networks);
      assert Str("default") == Str(name) <==> name == "default";
    }
  }

  lemma LabelsOfRouted(labels: Node, e: Edge, show: Show)
    requires ShowsStrings(show)
    ensures LabelMap(RoutedLabels(labels, e, show), show)
         == LabelMap(labels, show)["tetra" := Addresses(e)]["tetra.reverse_proxy" := Upstream(e)]
  {
    var m := LabelMap(labels, show)["tetra" := Addresses(e)]["tetra.reverse_proxy" := Upstream(e)];
    assert forall k :: k in m ==> Strings(m)[k] == Str(m[k]) && show(Str(m[k])) == m[k];
  }

  /** Routing touches one service, and of the top level only the edge network's declaration. */
  lemma EdgeChangesOnlyRouting(doc: Doc, e: Edge, show: Show)
    requires EntriesOf(doc).Some? && ApplyEdge(doc, e, show).Some?
    ensures !Enabled(e) ==> ApplyEdge(doc, e, show).value == doc
    ensures Enabled(e) ==>
              var entries, after := EntriesOf(doc).value, ApplyEdge(doc, e, show).value;
              && PublicService(entries, show).Some?
              && var i := PublicService(entries, show).value;
                 if i == |entries| then after == doc
                 else
                   && EntriesOf(after).Some? && |EntriesOf(after).value| == |entries|
                   && (forall j :: 0 <= j < |entries| && j != i ==> EntriesOf(after).value[j] == entries[j])
                   && EntriesOf(after).value[i] == Entry(entries[i].name, Dict(Route(entries[i].body.fields, e, show)))
                   && (forall key :: key != "networks" ==> SameAt(doc.others, after.others, key))
                   && DictOf(Get(after.others, "networks"))
                   == DictOf(Get(doc.others, "networks"))[e.network := External]
  {
  }

  /** The environment names the public service's variable: in an item of a list of strings, or in
      an entry of a map written out as key and value. */
  ghost predicate MentionsMarker(body: Node, show: Show) {
    body.Dict? && "environment" in body.fields &&
    match body.fields["environment"]
    case List(items) =>
      (forall i :: 0 <= i < |items| ==> items[i].Str?) &&
      exists i :: 0 <= i < |items| && items[i].Str? && Contains(items[i].s, "SERVICE_FQDN_")
    case Dict(fields) => exists k :: k in fields && Contains(k + "=" + show(fields[k]), "SERVICE_FQDN_")
    case _ => false
  }

  lemma PublicExactly(body: Node, show: Show)
    requires Public(body, show).Some?
    ensures Public(body, show).value <==> MentionsMarker(body, show)
  {
    hide Contains;
    if body.Dict? && "environment" in body.fields && body.fields["environment"].List? {
      var items := body.fields["environment"].items;
      if forall i :: 0 <= i < |items| ==> items[i].Str? {
        var texts := seq(|items|, i requires 0 <= i < |items| => items[i].s);
        assert ' ' !in Marker && Marker != "";
        ContainsJoined(texts, ' ', Marker);
        assert forall i :: 0 <= i < |items| ==> texts[i] == items[i].s;
      }
    }
  }

  lemma {:induction false} FirstMarkedExactly(entries: seq<Entry>, show: Show)
    requires FirstMarked(entries, show).Some?
    ensures var i := FirstMarked(entries, show).value;
            && i <= |entries|
            && (forall j :: 0 <= j < i ==> !MentionsMarker(entries[j].body, show))
            && (i < |entries| ==> MentionsMarker(entries[i].body, show))
  {
    hide Public, MentionsMarker;
    if entries != [] {
      PublicExactly(entries[0].body, show);
      if !Public(entries[0].body, show).value {
        FirstMarkedExactly(entries[1..], show);
        assert forall j :: 0 < j < |entries| ==> entries[j] == entries[1..][j - 1];
      }
    }
  }

  lemma {:induction false} FirstDictExactly(entries: seq<Entry>)
    ensures forall j :: 0 <= j < FirstDict(entries) ==> !entries[j].body.Dict?
  {
    if entries != [] && !entries[0].body.Dict? {
      FirstDictExactly(entries[1..]);
      assert forall j :: 0 < j < |entries| ==> entries[j] == entries[1..][j - 1];
    }
  }

  /** Which service gets the route: the first whose environment mentions the variable; if none
      does, the first that is a map; if none is, no service. */
  lemma PublicServiceExactly(entries: seq<Entry>, show: Show)
    requires PublicService(entries, show).Some?
    ensures var i := PublicService(entries, show).value;
            if exists j :: 0 <= j < |entries| && MentionsMarker(entries[j].body, show) then
              && i < |entries| && MentionsMarker(entries[i].body, show)
              && forall j :: 0 <= j < i ==> !MentionsMarker(entries[j].body, show)
            else
              && i <= |entries| && (i < |entries| ==> entries[i].body.Dict?)
              && forall j :: 0 <= j < i ==> !entries[j].body.Dict?
  {
    hide MentionsMarker, FirstMarked;
    FirstMarkedExactly(entries, show);
    FirstDictExactly(entries);
  }

  /** A host that can stand in a list of addresses. */
  ghost predicate IsHost(host: string) {
    ',' !in host && Trimmed(host)
  }

  /** The site addresses of the routed service: its own host, then the extra hosts that are not
      empty. Reading the label at its commas gives them back. */
  lemma AddressesExactly(e: Edge, x: string)
    requires IsHost(e.project + "." + e.domain) && forall i :: 0 <= i < |e.extraHosts| ==> IsHost(e.extraHosts[i])
    ensures var sites := Split(Addresses(e), ',');
            && sites[0] == "http://" + e.project + "." + e.domain
            && ((exists i :: 0 < i < |sites| && sites[i] == " " + x) <==>
                exists h :: h in e.extraHosts && h != "" && x == "http://" + h)
  {
    hide Split;
    var own, extra := "http://" + e.project + "." + e.domain, NonEmptyHosts(e.extraHosts);
    assert own == "http://" + (e.project + "." + e.domain);
    HostsHaveNoComma(e.extraHosts);
    JoinedSites(own, extra);
    NonEmptyExactly(e.extraHosts, x);
    var sites := [own] + Spaced(extra);
    assert forall i :: 0 < i < |sites| ==> sites[i] == " " + extra[i - 1];
    forall i | 0 < i < |sites|
      ensures sites[i] == " " + x <==> extra[i - 1] == x
    {
      SameBehindSpace(extra[i - 1], x);
    }
    assert forall i :: 0 <= i < |extra| ==> sites[i + 1] == " " + extra[i];
  }

  lemma {:induction false} HostsHaveNoComma(hosts: seq<string>)
    requires forall i :: 0 <= i < |hosts| ==> IsHost(hosts[i])
    ensures forall i :: 0 <= i < |NonEmptyHosts(hosts)| ==> ',' !in NonEmptyHosts(hosts)[i]
  {
    if hosts != [] {
      HostsHaveNoComma(hosts[1..]);
    }
  }

  lemma {:induction false} NonEmptyExactly(hosts: seq<string>, x: string)
    ensures x in NonEmptyHosts(hosts) <==> exists h :: h in hosts && h != "" && x == "http://" + h
  {
    if hosts != [] {
      NonEmptyExactly(hosts[1..], x);
      assert hosts == [hosts[0]] + hosts[1..];
    }
  }

  lemma SameBehindSpace(a: string, b: string)
    ensures " " + a == " " + b <==> a == b
  {
    assert (" " + a)[1..] == a && (" " + b)[1..] == b;
  }

  function Spaced(addresses: seq<string>): (r: seq<string>)
    ensures |r| == |addresses| && forall i :: 0 <= i < |r| ==> r[i] == " " + addresses[i]
  {
    seq(|addresses|, i requires 0 <= i < |addresses| => " " + addresses[i])
  }

  lemma {:induction false} JoinsSpaced(addresses: seq<string>)
    requires addresses != []
    ensures " " + JoinAddresses(addresses) == Join(Spaced(addresses), ',')
  {
    if |addresses| > 1 {
      var rest := addresses[1..];
      JoinsSpaced(rest);
      assert Spaced(addresses)[1..] == Spaced(rest);
      ThreeParts(addresses[0], JoinAddresses(rest));
    }
  }

  lemma ThreeParts(a: string, b: string)
    ensures " " + (a + ", " + b) == (" " + a) + [','] + (" " + b)
  {
  }

  lemma Comma(a: string, b: string)
    ensures a + ", " + b == a + [','] + (" " + b)
  {
  }

  lemma FirstAddress(first: string, rest: seq<string>)
    requires rest != []
    ensures JoinAddresses([first] + rest) == first + [','] + (" " + JoinAddresses(rest))
  {
    assert ([first] + rest)[1..] == rest;
    Comma(first, JoinAddresses(rest));
  }

  lemma JoinedSites(first: string, rest: seq<string>)
    requires ',' !in first && forall i :: 0 <= i < |rest| ==> ',' !in rest[i]
    ensures Split(JoinAddresses([first] + rest), ',') == [first] + Spaced(rest)
  {
    hide Split;
    if rest == [] {
      assert [first] + rest == [first] && [first] + Spaced(rest) == [first];
      SplitWhole(first, ',');
    } else {
      hide JoinAddresses, Join, Spaced;
      FirstAddress(first, rest);
      JoinsSpaced(rest);
      SplitAt(first, " " + JoinAddresses(rest), ',');
      SplitJoin(Spaced(rest), ',');
    }
  }

  /** A list of labels "key=value" gives each key its last value, and "key" alone the empty one. */
  lemma {:induction false} LabelsExactly(pairs: seq<(string, string)>, key: string, show: Show)
    requires ShowsStrings(show)
    requires forall i :: 0 <= i < |pairs| ==>
               Trimmed(pairs[i].0) && Trimmed(pairs[i].1) && '=' !in pairs[i].0
    ensures var labels := LabelMap(List(LabelItems(pairs)), show);
            && (key in labels <==> exists i :: 0 <= i < |pairs| && pairs[i].0 == key)
            && forall i :: 0 <= i < |pairs| && pairs[i].0 == key ==>
                 (forall j :: i < j < |pairs| ==> pairs[j].0 != key) ==> labels[key] == pairs[i].1
  {
    hide LabelKey, LabelValue, LabelText;
    if pairs != [] {
      var front, last := pairs[..|pairs| - 1], pairs[|pairs| - 1];
      LabelsExactly(front, key, show);
      LabelRead(last.0, last.1);
      var items := LabelItems(pairs);
      assert items[..|items| - 1] == LabelItems(front);
      assert items[|items| - 1] == Str(LabelText(last.0, last.1));
      assert forall i :: 0 <= i < |front| ==> front[i] == pairs[i];
    }
  }

  function LabelText(key: string, value: string): string {
    if value == "" then key else key + "=" + value
  }

  function LabelItems(pairs: seq<(string, string)>): (items: seq<Node>)
    ensures |items| == |pairs|
  {
    seq(|pairs|, i requires 0 <= i < |pairs| => Str(LabelText(pairs[i].0, pairs[i].1)))
  }

  lemma LabelRead(key: string, value: string)
    requires Trimmed(key) && Trimmed(value) && '=' !in key
    ensures LabelKey(LabelText(key, value)) == key && LabelValue(LabelText(key, value)) == value
  {
    hide Strip;
    var text := LabelText(key, value);
    StripFixedPoints(key);
    StripFixedPoints(value);
    StripFixedPoints("");
    if value == "" {
      assert text[..|text|] == key;
    } else {
      FindFirst(text, |key|, '=');
      assert text[..|key|] == key && text[|key| + 1..] == value;
    }
  }

  // ------------------------------------------------------------ limits

  /** Caps that a service sets itself are kept, missing ones are filled in (zero meaning no
      cap), and no other key changes. */
  lemma LimitsFillGaps(fields: map<string, Node>, l: Limits)
    ensures var after := Cap(Dict(fields), l).fields;
            && (forall k :: k in fields ==> k in after && after[k] == fields[k])
            && (forall k :: k in after && k !in fields ==> k in {"cpus", "mem_limit", "pids_limit"})
            && ("cpus" !in fields && "cpu_count" !in fields ==>
                  if l.cpu == 0 then "cpus" !in after
                  else "cpus" in after && after["cpus"] == Number(l.cpu as real / 1000.0))
            && ("mem_limit" !in fields ==>
                  if l.mem == 0 then "mem_limit" !in after
                  else "mem_limit" in after && after["mem_limit"] == Str(Dec(l.mem) + "m"))
            && ("pids_limit" !in fields ==>
                  if l.pids == 0 then "pids_limit" !in after
                  else "pids_limit" in after && after["pids_limit"] == Number(l.pids as real))
            && ("cpu_count" in fields && "cpus" !in fields ==> "cpus" !in after)
  {
  }

  lemma CapIsIdempotent(body: Node, l: Limits)
    ensures Cap(Cap(body, l), l) == Cap(body, l)
  {
  }

  lemma LimitsAreIdempotent(doc: Doc, l: Limits)
    ensures ApplyLimits(ApplyLimits(doc, l), l) == ApplyLimits(doc, l)
  {
    if doc.services.Services? {
      var entries := doc.services.entries;
      forall i | 0 <= i < |entries|
        ensures CapAll(CapAll(entries, l), l)[i] == CapAll(entries, l)[i]
      {
        CapIsIdempotent(entries[i].body, l);
      }
      assert CapAll(CapAll(entries, l), l) == CapAll(entries, l);
    }
  }

  // ------------------------------------------------------------ edge and limits commute

  /** Same names, same maps-or-not, same environments: all that choosing a service looks at. */
  ghost predicate SameChoice(a: seq<Entry>, b: seq<Entry>, show: Show) {
    && |a| == |b|
    && forall i :: 0 <= i < |a| ==> Alike(a[i].body, b[i].body, show)
  }

  ghost predicate Alike(a: Node, b: Node, show: Show) {
    (a.Dict? <==> b.Dict?) && Public(a, show) == Public(b, show)
  }

  lemma {:induction false} SameMarked(a: seq<Entry>, b: seq<Entry>, show: Show)
    requires SameChoice(a, b, show)
    ensures FirstMarked(a, show) == FirstMarked(b, show) && FirstDict(a) == FirstDict(b)
  {
    if a != [] {
      assert Alike(a[0].body, b[0].body, show);
      forall i | 0 <= i < |a| - 1
        ensures Alike(a[1..][i].body, b[1..][i].body, show)
      {
        assert Alike(a[i + 1].body, b[i + 1].body, show);
      }
      SameMarked(a[1..], b[1..], show);
    }
  }

  lemma CapIsAlike(body: Node, l: Limits, show: Show)
    ensures Alike(Cap(body, l), body, show)
  {
  }

  lemma RouteIsAlike(fields: map<string, Node>, e: Edge, show: Show)
    ensures Alike(Dict(Route(fields, e, show)), Dict(fields), show)
  {
  }

  lemma CappedChoice(entries: seq<Entry>, l: Limits, show: Show)
    ensures PublicService(CapAll(entries, l), show) == PublicService(entries, show)
  {
    forall i | 0 <= i < |entries|
      ensures Alike(CapAll(entries, l)[i].body, entries[i].body, show)
    {
      CapIsAlike(entries[i].body, l, show);
    }
    SameMarked(CapAll(entries, l), entries, show);
  }

  lemma RoutedChoice(entries: seq<Entry>, i: nat, e: Edge, show: Show)
    requires i < |entries| && entries[i].body.Dict?
    ensures PublicService(RouteEntry(entries, i, e, show), show) == PublicService(entries, show)
  {
    var after := RouteEntry(entries, i, e, show);
    forall j | 0 <= j < |entries|
      ensures Alike(after[j].body, entries[j].body, show)
    {
      RouteIsAlike(entries[i].body.fields, e, show);
    }
    SameMarked(after, entries, show);
  }

  lemma CapRouteCommute(fields: map<string, Node>, l: Limits, e: Edge, show: Show)
    ensures Cap(Dict(Route(fields, e, show)), l) == Dict(Route(Cap(Dict(fields), l).fields, e, show))
  {
    var capped := Cap(Dict(fields), l).fields;
    CapKeeps(fields, l, "labels");
    CapKeeps(fields, l, "networks");
    var labels := RoutedLabels(Get(fields, "labels"), e, show);
    var networks := NetworksWith(Get(fields, "networks"), e.network);
    CapPastKey(fields, l, "labels", labels);
    CapPastKey(fields["labels" := labels], l, "networks", networks);
  }

  lemma CapKeeps(fields: map<string, Node>, l: Limits, key: string)
    requires key !in {"cpus", "cpu_count", "mem_limit", "pids_limit"}
    ensures Get(Cap(Dict(fields), l).fields, key) == Get(fields, key)
  {
  }

  lemma CapPastKey(fields: map<string, Node>, l: Limits, key: string, value: Node)
    requires key !in {"cpus", "cpu_count", "mem_limit", "pids_limit"}
    ensures Cap(Dict(fields[key := value]), l).fields == Cap(Dict(fields), l).fields[key := value]
  {
    var a, b := CapCpu(fields[key := value], l), CapCpu(fields, l);
    assert a == b[key := value];
    var c, d := CapMem(a, l), CapMem(b, l);
    assert c == d[key := value];
    assert CapPids(c, l) == CapPids(d, l)[key := value];
  }

  /** Routing a capped file and capping a routed file give the same file. */
  lemma EdgeAndLimitsCommute(doc: Doc, e: Edge, l: Limits, show: Show)
    ensures ApplyEdge(ApplyLimits(doc, l), e, show) ==
            match ApplyEdge(doc, e, show)
            case None => None
            case Some(routed) => Some(ApplyLimits(routed, l))
  {
    hide PublicService, Cap, Route;
    if doc.services.Services? && Enabled(e) {
      var entries := doc.services.entries;
      CappedChoice(entries, l, show);
      var chosen := PublicService(entries, show);
      if chosen.Some? && chosen.value < |entries| {
        var i := chosen.value;
        CapRouteCommute(entries[i].body.fields, l, e, show);
        assert CapAll(RouteEntry(entries, i, e, show), l) == RouteEntry(CapAll(entries, l), i, e, show);
      }
    }
  }

  // ------------------------------------------------------------ idempotence

  lemma RouteIsIdempotent(fields: map<string, Node>, e: Edge, show: Show)
    requires ShowsStrings(show)
    ensures Route(Route(fields, e, show), e, show) == Route(fields, e, show)
  {
    hide LabelMap, NetworksWith, Addresses, Upstream, Strings;
    var once := Route(fields, e, show);
    LabelsOfRouted(Get(fields, "labels"), e, show);
    var m := LabelMap(Get(once, "labels"), show);
    assert m["tetra" := Addresses(e)]["tetra.reverse_proxy" := Upstream(e)] == m;
    NetworksStable(Get(fields, "networks"), e.network);
    assert RoutedLabels(Get(once, "labels"), e, show) == once["labels"];
  }

  lemma NetworksStable(networks: Node, name: string)
    ensures NetworksWith(NetworksWith(networks, name), name) == NetworksWith(networks, name)
  {
  }

  /** Routing a routed file changes nothing. */
  lemma EdgeIsIdempotent(doc: Doc, e: Edge, show: Show)
    requires ShowsStrings(show) && ApplyEdge(doc, e, show).Some?
    ensures ApplyEdge(ApplyEdge(doc, e, show).value, e, show) == ApplyEdge(doc, e, show)
  {
    hide Route, PublicService;
    var once := ApplyEdge(doc, e, show).value;
    if Enabled(e) {
      var entries := EntriesOf(doc).value;
      var i := PublicService(entries, show).value;
      if i < |entries| {
        RoutedChoice(entries, i, e, show);
        RouteIsIdempotent(entries[i].body.fields, e, show);
        var routed := RouteEntry(entries, i, e, show);
        assert RouteEntry(routed, i, e, show) == routed;
        var top := DictOf(Get(once.others, "networks"));
        assert top[e.network := External] == top;
        assert WithEdgeNetwork(once.others, e) == once.others;
      }
    }
  }

  // ------------------------------------------------------------ the pipeline

  /** The rewrites in the order of the install. */
  function Pipeline(doc: Doc, e: Edge, l: Limits, show: Show): Option<Doc> {
    match Normalize(doc, show)
    case None => None
    case Some(declared) =>
      match ApplyEdge(declared, e, show)
      case None => None
      case Some(routed) => Some(ApplyLimits(routed, l))
  }

  lemma CapKeepsNames(body: Node, l: Limits, show: Show)
    ensures NamesOf(Cap(body, l), show) == NamesOf(body, show)
  {
    if body.Dict? {
      CapKeeps(body.fields, l, "volumes");
    }
  }

  lemma LimitsKeepReferences(doc: Doc, l: Limits, show: Show)
    requires EntriesOf(doc).Some?
    ensures EntriesOf(ApplyLimits(doc, l)).Some?
    ensures Referenced(EntriesOf(ApplyLimits(doc, l)).value, show) == Referenced(EntriesOf(doc).value, show)
  {
    if doc.services.Services? {
      var entries := doc.services.entries;
      forall i | 0 <= i < |entries|
        ensures NamesOf(CapAll(entries, l)[i].body, show) == NamesOf(entries[i].body, show)
      {
        CapKeepsNames(entries[i].body, l, show);
      }
      SameReferences(CapAll(entries, l), entries, show);
    }
  }

  lemma EdgeKeepsReferences(doc: Doc, e: Edge, show: Show)
    requires EntriesOf(doc).Some? && ApplyEdge(doc, e, show).Some?
    ensures var after := ApplyEdge(doc, e, show).value;
            && EntriesOf(after).Some?
            && Referenced(EntriesOf(after).value, show) == Referenced(EntriesOf(doc).value, show)
            && Get(after.others, "volumes") == Get(doc.others, "volumes")
  {
    if Enabled(e) {
      var entries := EntriesOf(doc).value;
      var i := PublicService(entries, show).value;
      if i < |entries| {
        SameReferences(RouteEntry(entries, i, e, show), entries, show);
      }
    }
  }

  /** The declared volumes survive routing and capping, so the deployed file has them all. */
  lemma PipelineDeclaresVolumes(doc: Doc, e: Edge, l: Limits, show: Show)
    requires Pipeline(doc, e, l, show).Some?
    ensures var after := Pipeline(doc, e, l, show).value;
            && EntriesOf(after).Some?
            && Referenced(EntriesOf(after).value, show) == Referenced(EntriesOf(doc).value, show)
            && Referenced(EntriesOf(doc).value, show).Some?
            && Referenced(EntriesOf(doc).value, show).value <= DictOf(Get(after.others, "volumes")).Keys
  {
    var declared := Normalize(doc, show).value;
    VolumesEndUpDeclared(doc, show);
    EdgeKeepsReferences(declared, e, show);
    LimitsKeepReferences(ApplyEdge(declared, e, show).value, l, show);
  }

  /** The same of the deployed file. */
  lemma PipelineVolumesExactly(doc: Doc, e: Edge, l: Limits, name: string, show: Show)
    requires Pipeline(doc, e, l, show).Some?
    ensures name in DictOf(Get(Pipeline(doc, e, l, show).value.others, "volumes")) <==>
            name in DictOf(Get(doc.others, "volumes")) || UsedBy(EntriesOf(doc).value, name, show)
  {
    hide UsedBy, Route, PublicService;
    var declared := Normalize(doc, show).value;
    VolumesExactly(doc, name, show);
    VolumesEndUpDeclared(doc, show);
    EdgeKeepsReferences(declared, e, show);
  }

  /** In particular "name:path" and "name" in the list of any service declare the name. */
  lemma MountDeclaresItsVolume(doc: Doc, e: Edge, l: Limits, i: nat, name: string, path: string, show: Show)
    requires Pipeline(doc, e, l, show).Some? && IsVolumeName(name)
    requires i < |EntriesOf(doc).value| && Lists(EntriesOf(doc).value[i].body, Str(name + ":" + path))
    ensures name in DictOf(Get(Normalize(doc, show).value.others, "volumes"))
    ensures name in DictOf(Get(Pipeline(doc, e, l, show).value.others, "volumes"))
  {
    hide Lists, Pipeline, Normalize;
    var text := name + ":" + path;
    assert text[..|name|] == name;
    assert IsCore(name, name, 0) && IsSource(text, name, |name|, 0);
    assert Mounts(Str(text), name, show);
    SomeNormalized(doc, e, l, show);
    assert UsedBy(EntriesOf(doc).value, name, show);
    VolumesExactly(doc, name, show);
    PipelineVolumesExactly(doc, e, l, name, show);
  }

  lemma SomeNormalized(doc: Doc, e: Edge, l: Limits, show: Show)
    requires Pipeline(doc, e, l, show).Some?
    ensures Normalize(doc, show).Some? && EntriesOf(doc).Some?
  {
  }

  /** And a path mounts no volume, whatever follows it. */
  lemma PathsMountNothing(text: string, name: string, show: Show)
    requires text != "" && text[0] in {'/', '.', '~', '$'}
    ensures !Mounts(Str(text), name, show)
  {
    forall k: nat, i: nat | IsSource(text, name, k, i) && name != ""
      ensures name[0] == text[0]
    {
      SourceStart(text, name, k, i);
    }
  }

  lemma SourceStart(text: string, name: string, k: nat, i: nat)
    requires IsSource(text, name, k, i) && name != ""
    requires text != "" && !IsSpace(text[0])
    ensures name[0] == text[0]
  {
    assert text[..k][i] == name[0];
    assert text[..k][0] == text[0];
  }

  /** Running the whole pipeline on its own output changes nothing. */
  lemma PipelineIsIdempotent(doc: Doc, e: Edge, l: Limits, show: Show)
    requires ShowsStrings(show) && Pipeline(doc, e, l, show).Some?
    ensures Pipeline(Pipeline(doc, e, l, show).value, e, l, show) == Pipeline(doc, e, l, show)
  {
    var declared := Normalize(doc, show).value;
    var routed := ApplyEdge(declared, e, show).value;
    var after := ApplyLimits(routed, l);
    PipelineDeclaresVolumes(doc, e, l, show);
    NormalizeFixed(after, show);
    EdgeAndLimitsCommute(routed, e, l, show);
    EdgeIsIdempotent(declared, e, show);
    LimitsAreIdempotent(routed, l);
  }

  // ------------------------------------------------------------ what the pipeline leaves alone

  const CapKeys: set<string> := {"cpus", "mem_limit", "pids_limit"}
  const RoutingKeys: set<string> := {"labels", "networks"}

  /** Routing and caps aside, the service is the same, and the caps it sets itself are too. */
  ghost predicate ServiceKept(a: Node, b: Node) {
    if a.Dict? then
      && b.Dict?
      && (forall k :: k !in CapKeys + RoutingKeys ==> SameAt(a.fields, b.fields, k))
      && (forall k :: k in CapKeys && k in a.fields ==> SameAt(a.fields, b.fields, k))
    else a == b
  }

  /** Each cap that the service lacks has the configured value, zero meaning none; a `cpu_count`
      stands in for `cpus`. */
  ghost predicate Capped(a: Node, b: Node, l: Limits) {
    a.Dict? && b.Dict? ==>
      && ("cpus" !in a.fields ==>
            if l.cpu == 0 || "cpu_count" in a.fields then "cpus" !in b.fields
            else "cpus" in b.fields && b.fields["cpus"] == Number(l.cpu as real / 1000.0))
      && ("mem_limit" !in a.fields ==>
            if l.mem == 0 then "mem_limit" !in b.fields
            else "mem_limit" in b.fields && b.fields["mem_limit"] == Str(Dec(l.mem) + "m"))
      && ("pids_limit" !in a.fields ==>
            if l.pids == 0 then "pids_limit" !in b.fields
            else "pids_limit" in b.fields && b.fields["pids_limit"] == Number(l.pids as real))
  }

  ghost predicate SameCaps(a: Node, b: Node) {
    a.Dict? && b.Dict? ==> forall k :: k in CapKeys ==> SameAt(a.fields, b.fields, k)
  }

  ghost predicate NotRouted(a: Node, b: Node) {
    a.Dict? && b.Dict? ==> forall k :: k in RoutingKeys ==> SameAt(a.fields, b.fields, k)
  }

  /** The two routing labels are set and every other label is as it was; the edge network is
      added, and no network is lost unless the network map was empty. */
  ghost predicate Routed(a: Node, b: Node, e: Edge, show: Show) {
    && a.Dict? && b.Dict?
    && LabelMap(Get(b.fields, "labels"), show)
       == LabelMap(Get(a.fields, "labels"), show)["tetra" := Addresses(e)]["tetra.reverse_proxy" := Upstream(e)]
    && Str(e.network) in Attached(Get(b.fields, "networks"))
    && (Attached(Get(a.fields, "networks")) <= Attached(Get(b.fields, "networks"))
        <==> Get(a.fields, "networks") != Dict(map[]) || e.network == "default")
  }

  /** Whether service i is the one that gets the route. */
  predicate IsRouted(entries: seq<Entry>, e: Edge, show: Show, i: nat) {
    Enabled(e) && PublicService(entries, show) == Some(i)
  }

  lemma CapOnService(a: Node, l: Limits)
    ensures ServiceKept(a, Cap(a, l)) && Capped(a, Cap(a, l), l) && NotRouted(a, Cap(a, l))
  {
    if a.Dict? {
      LimitsFillGaps(a.fields, l);
      forall k | k !in CapKeys
        ensures SameAt(a.fields, Cap(a, l).fields, k)
      {
      }
    }
  }

  lemma RouteKeeps(a: map<string, Node>, e: Edge, show: Show)
    ensures SameCaps(Dict(a), Dict(Route(a, e, show))) && ServiceKept(Dict(a), Dict(Route(a, e, show)))
  {
    hide RoutedLabels, NetworksWith;
  }

  lemma RouteOnService(a: map<string, Node>, e: Edge, show: Show)
    requires ShowsStrings(show)
    ensures SameCaps(Dict(a), Dict(Route(a, e, show)))
    ensures ServiceKept(Dict(a), Dict(Route(a, e, show))) && Routed(Dict(a), Dict(Route(a, e, show)), e, show)
  {
    hide SameCaps, ServiceKept, LabelMap, RoutedLabels, NetworksWith, Attached, Addresses, Upstream;
    RouteKeeps(a, e, show);
    LabelsOfRouted(Get(a, "labels"), e, show);
    KeepsNetworksExactly(Get(a, "networks"), e.network);
    var after := Route(a, e, show);
    assert Get(after, "labels") == RoutedLabels(Get(a, "labels"), e, show);
    assert Get(after, "networks") == NetworksWith(Get(a, "networks"), e.network);
  }

  lemma KeptTwice(a: Node, b: Node, c: Node, e: Edge, l: Limits, show: Show)
    requires ServiceKept(a, b) && SameCaps(a, b) && ServiceKept(b, c) && Capped(b, c, l) && NotRouted(b, c)
    ensures ServiceKept(a, c) && Capped(a, c, l)
    ensures NotRouted(a, b) ==> NotRouted(a, c)
    ensures Routed(a, b, e, show) ==> Routed(a, c, e, show)
  {
    hide LabelMap, Attached, Addresses, Upstream;
    if a.Dict? {
      assert SameAt(b.fields, c.fields, "labels") && SameAt(b.fields, c.fields, "networks");
      assert SameAt(a.fields, b.fields, "cpu_count") && SameAt(a.fields, b.fields, "cpus");
      assert SameAt(a.fields, b.fields, "mem_limit") && SameAt(a.fields, b.fields, "pids_limit");
      assert forall k ::
          SameAt(a.fields, b.fields, k) && SameAt(b.fields, c.fields, k) ==> SameAt(a.fields, c.fields, k);
    }
  }

  /** Of every service, the whole pipeline changes only the caps it lacks; and of the one that
      gets the route, the two routing labels and the networks. */
  lemma PipelineOnServices(doc: Doc, e: Edge, l: Limits, show: Show)
    requires ShowsStrings(show) && Pipeline(doc, e, l, show).Some?
    ensures var after := Pipeline(doc, e, l, show).value;
            && EntriesOf(doc).Some? && EntriesOf(after).Some?
            && var a, b := EntriesOf(doc).value, EntriesOf(after).value;
               && |a| == |b|
               && forall i :: 0 <= i < |a| ==>
                    && b[i].name == a[i].name
                    && ServiceKept(a[i].body, b[i].body)
                    && Capped(a[i].body, b[i].body, l)
                    && if IsRouted(a, e, show, i) then Routed(a[i].body, b[i].body, e, show)
                       else NotRouted(a[i].body, b[i].body)
  {
    hide Cap, Route, PublicService, ServiceKept, SameCaps, Capped, Routed, NotRouted;
    var declared := Normalize(doc, show).value;
    var routed := ApplyEdge(declared, e, show).value;
    assert declared.services == doc.services;
    var a := EntriesOf(doc).value;
    var r, b := EntriesOf(routed).value, EntriesOf(ApplyLimits(routed, l)).value;
    assert |a| == |r| == |b|;
    forall i | 0 <= i < |a|
      ensures b[i].name == a[i].name && ServiceKept(a[i].body, b[i].body) && Capped(a[i].body, b[i].body, l)
      ensures if IsRouted(a, e, show, i) then Routed(a[i].body, b[i].body, e, show) else NotRouted(a[i].body, b[i].body)
    {
      assert b[i] == Entry(r[i].name, Cap(r[i].body, l));
      CapOnService(r[i].body, l);
      Untouched(a[i].body);
      if IsRouted(a, e, show, i) {
        assert r[i] == Entry(a[i].name, Dict(Route(a[i].body.fields, e, show)));
        RouteOnService(a[i].body.fields, e, show);
      } else {
        assert r[i] == a[i];
      }
      KeptTwice(a[i].body, r[i].body, b[i].body, e, l, show);
    }
  }

  lemma Untouched(a: Node)
    ensures ServiceKept(a, a) && SameCaps(a, a) && NotRouted(a, a)
  {
  }

  ghost predicate AnyRouted(doc: Doc, e: Edge, show: Show) {
    && EntriesOf(doc).Some?
    && exists i :: 0 <= i < |EntriesOf(doc).value| && IsRouted(EntriesOf(doc).value, e, show, i)
  }

  /** Of the top level it changes only the declarations of volumes and networks: every volume
      declaration survives, and every network declaration does if, and only if, nothing is
      routed, or the edge network was undeclared, or it was declared external already. */
  lemma PipelineOnTopLevel(doc: Doc, e: Edge, l: Limits, show: Show)
    requires Pipeline(doc, e, l, show).Some?
    ensures var after := Pipeline(doc, e, l, show).value;
            var volumes, volumesNow := DictOf(Get(doc.others, "volumes")), DictOf(Get(after.others, "volumes"));
            var networks, networksNow := DictOf(Get(doc.others, "networks")), DictOf(Get(after.others, "networks"));
            && (forall key :: key != "volumes" && key != "networks" ==> SameAt(doc.others, after.others, key))
            && (forall v :: v in volumes ==> SameAt(volumes, volumesNow, v))
            && (forall n :: n != e.network ==> SameAt(networks, networksNow, n))
            && (AnyRouted(doc, e, show) ==> e.network in networksNow && networksNow[e.network] == External)
            && ((forall n :: n in networks ==> SameAt(networks, networksNow, n)) <==>
                !AnyRouted(doc, e, show) || e.network !in networks || networks[e.network] == External)
  {
    hide Normalize, ApplyEdge, AnyRouted, External;
    var declared := Normalize(doc, show).value;
    var routed := ApplyEdge(declared, e, show).value;
    DeclaringOnTopLevel(doc, e, show);
    RoutingOnTopLevel(declared, e, show);
    assert ApplyLimits(routed, l).others == routed.others;
    assert SameAt(doc.others, declared.others, "networks") && SameAt(declared.others, routed.others, "volumes");
    forall key | key != "volumes" && key != "networks"
      ensures SameAt(doc.others, routed.others, key)
    {
      assert SameAt(doc.others, declared.others, key) && SameAt(declared.others, routed.others, key);
    }
  }

  lemma DeclaringOnTopLevel(doc: Doc, e: Edge, show: Show)
    requires Normalize(doc, show).Some?
    ensures var after := Normalize(doc, show).value;
            && EntriesOf(after).Some?
            && (forall key :: key != "volumes" ==> SameAt(doc.others, after.others, key))
            && (forall v :: v in DictOf(Get(doc.others, "volumes")) ==>
                  SameAt(DictOf(Get(doc.others, "volumes")), DictOf(Get(after.others, "volumes")), v))
            && (AnyRouted(after, e, show) <==> AnyRouted(doc, e, show))
  {
    VolumesEndUpDeclared(doc, show);
    hide Normalize, PublicService;
  }

  lemma RoutingOnTopLevel(doc: Doc, e: Edge, show: Show)
    requires EntriesOf(doc).Some? && ApplyEdge(doc, e, show).Some?
    ensures var after := ApplyEdge(doc, e, show).value;
            var networks, networksNow := DictOf(Get(doc.others, "networks")), DictOf(Get(after.others, "networks"));
            && (forall key :: key != "networks" ==> SameAt(doc.others, after.others, key))
            && networksNow == if AnyRouted(doc, e, show) then networks[e.network := External] else networks
  {
    EdgeChangesOnlyRouting(doc, e, show);
    hide ApplyEdge, Route, PublicService;
    if Enabled(e) {
      var entries := EntriesOf(doc).value;
      var i := PublicService(entries, show).value;
      assert IsRouted(entries, e, show, i);
      assert forall j :: IsRouted(entries, e, show, j) ==> j == i;
    }
  }

  /** A declaration that is lost: the edge network as the file's own bridge network. */
  lemma OwnEdgeNetworkIsReplaced(e: Edge, l: Limits, show: Show)
    requires Enabled(e)
    ensures var own := Dict(map[e.network := Dict(map["driver" := Str("bridge")])]);
            var doc := Doc(Services([Entry("web", Dict(map[]))]), map["networks" := own]);
            && Pipeline(doc, e, l, show).Some?
            && DictOf(Get(Pipeline(doc, e, l, show).value.others, "networks")) == map[e.network := External]
  {
    var own := Dict(map[e.network := Dict(map["driver" := Str("bridge")])]);
    var entries := [Entry("web", Dict(map[]))];
    var doc := Doc(Services(entries), map["networks" := own]);
    assert NamesOf(entries[0].body, show) == Some({});
    assert entries[..0] == [] && Referenced(entries[..0], show) == Some({});
    assert Referenced(entries, show) == Some({} + {});
    assert Public(entries[0].body, show) == Some(false);
    assert FirstMarked(entries[1..], show) == Some(0);
    assert FirstMarked(entries, show) == Some(1);
    assert PublicService(entries, show) == Some(0);
  }
}
