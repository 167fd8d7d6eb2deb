/** Where a firewall object is used: `_rule_matches` and `_find_firewall_object_usage` of
    `backend/routers/firewall.py`, against a cluster whose reads may fail one by one. */
module FirewallUsage {
  import opened Text

  datatype ObjectKind = SecurityGroup | IpSet | Alias

  /** A rule as read: not a dictionary, or the fields the search looks at (`ruleType` lower-cased,
      `action`, `source` and `dest` through `_s`), its position and its summary line. */
  datatype Rule = NotADict | Rule(ruleType: string, action: Option<string>, source: Option<string>, dest: Option<string>,
                                  pos: int, summary: string)

  predicate HasToken(field: Option<string>, target: string)
  {
    field.Some? && field.value != "" &&
    var tokens := Split(field.value, ',');
    exists i :: 0 <= i < |tokens| && Strip(tokens[i]) == target
  }

  /** `_rule_matches`. */
  predicate RuleMatches(r: Rule, kind: ObjectKind, name: string)
  {
    match r
    case NotADict => false
    case Rule(ruleType, action, source, dest, _, _) =>
      if kind == SecurityGroup then ruleType == "group" && action == Some(name)
      else
        var target := if kind == IpSet then "+" + name else name;
        HasToken(source, target) || HasToken(dest, target)
  }

  /** The field is the given entries, comma-free and with any white space around them, joined by
      commas; no entries at all is an absent or empty field. */
  predicate Spells(field: Option<string>, entries: seq<string>)
  {
    && NoneContains(entries, ',') && entries != [""]
    && if entries == [] then field == None || field == Some("") else field == Some(Join(entries, ','))
  }

  lemma TokensOfField(field: Option<string>, entries: seq<string>, target: string)
    requires Spells(field, entries)
    ensures HasToken(field, target) <==> target in Stripped(entries)
  {
    if entries != [] {
      SplitJoin(entries, ',');
      assert forall i :: 0 <= i < |entries| ==> Stripped(entries)[i] == Strip(entries[i]);
    }
  }

  /** Tokens are compared whole, in both fields: an alias matches the rules that list its very name
      as source or destination, an IP set those that list its name after a plus sign.  A security
      group matches the rules of type "group" whose action is its name, whatever they list. */
  lemma MatchIsExact(r: Rule, sources: seq<string>, dests: seq<string>, name: string)
    requires r.Rule? && Spells(r.source, sources) && Spells(r.dest, dests)
    ensures RuleMatches(r, Alias, name) <==> name in Stripped(sources) || name in Stripped(dests)
    ensures RuleMatches(r, IpSet, name) <==> "+" + name in Stripped(sources) || "+" + name in Stripped(dests)
    ensures RuleMatches(r, SecurityGroup, name) <==> r.ruleType == "group" && r.action == Some(name)
    ensures forall other, source, dest :: RuleMatches(r, SecurityGroup, name) && RuleMatches(r.(source := source, dest := dest), SecurityGroup, other) ==>
              name == other
  {
    TokensOfField(r.source, sources, name);
    TokensOfField(r.dest, dests, name);
    TokensOfField(r.source, sources, "+" + name);
    TokensOfField(r.dest, dests, "+" + name);
  }

  /** Every field is spelled by some entries. */
  lemma FieldIsSpelled(field: Option<string>) returns (entries: seq<string>)
    ensures Spells(field, entries)
  {
    if field == None || field == Some("") {
      entries := [];
    } else {
      entries := Split(field.value, ',');
      SplitPartsFree(field.value, ',');
      JoinSplit(field.value, ',');
    }
  }

  // ── the cluster ────────────────────────────────────────────────────────────

  datatype Place = Datacenter | GroupRules(group: string) | NodeRules(node: string) | GuestRules(host: string, vmid: int, lxc: bool)

  datatype GroupItem = GroupItem(isDict: bool, group: Option<string>)
  /** `status` is in lower case. */
  datatype NodeItem = NodeItem(isDict: bool, node: Option<string>, status: string)
  /** `vmidTruthy` is Python's truth of the raw value, `vmid` the integer read from it, if any. */
  datatype GuestItem = GuestItem(isDict: bool, vmidTruthy: bool, vmid: Option<int>, node: Option<string>, lxc: bool)

  /** What every read returns; `None` where it raises. */
  datatype Cluster = Cluster(groups: Option<seq<GroupItem>>, nodes: Option<seq<NodeItem>>, guests: Option<seq<GuestItem>>,
                             rulesAt: Place -> Option<seq<Rule>>)

  predicate Named(s: Option<string>) { s.Some? && s.value != "" }

  predicate WantedGroup(g: GroupItem) { g.isDict && Named(g.group) }

  predicate WantedNode(n: NodeItem)
  {
    n.isDict && Named(n.node) && (n.status == "" || n.status == "online" || n.status == "unknown")
  }

  predicate WantedGuest(v: GuestItem) { v.isDict && v.vmidTruthy && v.vmid.Some? && Named(v.node) }

  function GroupPlaces(items: seq<GroupItem>): seq<Place>
  {
    if items == [] then []
    else
      var init, last := GroupPlaces(items[..|items| - 1]), items[|items| - 1];
      if WantedGroup(last) then init + [GroupRules(last.group.value)] else init
  }

  function NodePlaces(items: seq<NodeItem>): seq<Place>
  {
    if items == [] then []
    else
      var init, last := NodePlaces(items[..|items| - 1]), items[|items| - 1];
      if WantedNode(last) then init + [NodeRules(last.node.value)] else init
  }

  function GuestPlaces(items: seq<GuestItem>): seq<Place>
  {
    if items == [] then []
    else
      var init, last := GuestPlaces(items[..|items| - 1]), items[|items| - 1];
      if WantedGuest(last) then init + [GuestRules(last.node.value, last.vmid.value, last.lxc)] else init
  }

  function OrNothing<T>(items: Option<seq<T>>): seq<T> { if items.Some? then items.value else [] }

  /** Every place the search visits, in its order. */
  function Places(c: Cluster): seq<Place>
  {
    [Datacenter] + GroupPlaces(OrNothing(c.groups)) + NodePlaces(OrNothing(c.nodes)) + GuestPlaces(OrNothing(c.guests))
  }

  // ── the search ─────────────────────────────────────────────────────────────

  datatype Usage = Usage(place: Place, pos: int, summary: string)

  function UsageOf(p: Place, r: Rule): Usage
    requires r.Rule?
  {
    Usage(p, r.pos, r.summary)
  }

  function Hits(p: Place, rules: seq<Rule>, kind: ObjectKind, name: string): seq<Usage>
  {
    if rules == [] then []
    else
      var init, last := Hits(p, rules[..|rules| - 1], kind, name), rules[|rules| - 1];
      if RuleMatches(last, kind, name) then init + [UsageOf(p, last)] else init
  }

  function HitsAt(c: Cluster, p: Place, kind: ObjectKind, name: string): seq<Usage>
  {
    Hits(p, OrNothing(c.rulesAt(p)), kind, name)
  }

  function HitsIn(c: Cluster, places: seq<Place>, kind: ObjectKind, name: string): seq<Usage>
  {
    if places == [] then []
    else HitsIn(c, places[..|places| - 1], kind, name) + HitsAt(c, places[|places| - 1], kind, name)
  }

  predicate AnyUnread(c: Cluster, places: seq<Place>)
  {
    exists i :: 0 <= i < |places| && c.rulesAt(places[i]).None?
  }

  /** Reads one place and collects its matching rules. */
  method SearchPlace(c: Cluster, p: Place, kind: ObjectKind, name: string) returns (hits: seq<Usage>, failed: bool)
    ensures hits == HitsAt(c, p, kind, name) && failed == c.rulesAt(p).None?
  {
    var rules := c.rulesAt(p);
    failed := rules.None?;
    hits := [];
    var list := OrNothing(rules);
    for i := 0 to |list|
      invariant hits == Hits(p, list[..i], kind, name)
    {
      assert list[..i + 1][..i] == list[..i];
      if RuleMatches(list[i], kind, name) { hits := hits + [UsageOf(p, list[i])]; }
    }
    assert list[..|list|] == list;
  }

  /** The fan-out over some places; `incomplete` is raised by any failed read. */
  method SearchPlaces(c: Cluster, places: seq<Place>, kind: ObjectKind, name: string) returns (usages: seq<Usage>, incomplete: bool)
    ensures usages == HitsIn(c, places, kind, name) && incomplete == AnyUnread(c, places)
  {
    usages, incomplete := [], false;
    for i := 0 to |places|
      invariant usages == HitsIn(c, places[..i], kind, name)
      invariant incomplete <==> exists j :: 0 <= j < i && c.rulesAt(places[j]).None?
    {
      assert places[..i + 1][..i] == places[..i];
      var hits, failed := SearchPlace(c, places[i], kind, name);
      usages := usages + hits;
      incomplete := incomplete || failed;
    }
    assert places[..|places|] == places;
  }

  lemma LastOfConcat(a: seq<Place>, b: seq<Place>)
    requires b != []
    ensures a + b != [] && (a + b)[..|a + b| - 1] == a + b[..|b| - 1] && (a + b)[|a + b| - 1] == b[|b| - 1]
  {
  }

  lemma {:induction false} HitsInConcat(c: Cluster, a: seq<Place>, b: seq<Place>, kind: ObjectKind, name: string)
    ensures HitsIn(c, a + b, kind, name) == HitsIn(c, a, kind, name) + HitsIn(c, b, kind, name)
  {
    if b == [] {
      assert a + b == a;
    } else {
      LastOfConcat(a, b);
      HitsInConcat(c, a, b[..|b| - 1], kind, name);
    }
  }

  lemma UnreadConcat(c: Cluster, a: seq<Place>, b: seq<Place>)
    ensures AnyUnread(c, a + b) <==> AnyUnread(c, a) || AnyUnread(c, b)
  {
    assert forall i :: 0 <= i < |b| ==> (a + b)[|a| + i] == b[i];
    assert forall i :: 0 <= i < |a| ==> (a + b)[i] == a[i];
  }

  /** Something the search wanted to read could not be read. */
  predicate Incomplete(c: Cluster) { c.groups.None? || c.nodes.None? || c.guests.None? || AnyUnread(c, Places(c)) }

  /** `_find_firewall_object_usage`. */
  method FindUsage(c: Cluster, kind: ObjectKind, name: string) returns (usages: seq<Usage>, incomplete: bool)
    ensures usages == HitsIn(c, Places(c), kind, name) && incomplete == Incomplete(c)
  {
    var groups, nodes, guests := GroupPlaces(OrNothing(c.groups)), NodePlaces(OrNothing(c.nodes)), GuestPlaces(OrNothing(c.guests));
    var hits, failed;
    usages, incomplete := SearchPlaces(c, [Datacenter], kind, name);
    hits, failed := SearchPlaces(c, groups, kind, name);
    HitsInConcat(c, [Datacenter], groups, kind, name);
    UnreadConcat(c, [Datacenter], groups);
    usages, incomplete := usages + hits, incomplete || failed || c.groups.None?;
    hits, failed := SearchPlaces(c, nodes, kind, name);
    HitsInConcat(c, [Datacenter] + groups, nodes, kind, name);
    UnreadConcat(c, [Datacenter] + groups, nodes);
    usages, incomplete := usages + hits, incomplete || failed || c.nodes.None?;
    hits, failed := SearchPlaces(c, guests, kind, name);
    HitsInConcat(c, [Datacenter] + groups + nodes, guests, kind, name);
    UnreadConcat(c, [Datacenter] + groups + nodes, guests);
    usages, incomplete := usages + hits, incomplete || failed || c.guests.None?;
  }

  // ── sound, and complete unless it says otherwise ───────────────────────────

  /** The places the search goes to: the datacenter, every named group, every named node with an
      empty, online or unknown status, every guest with a VMID and a node.  The documentation promises
      all nodes and all guests. */
  ghost predicate Listed(c: Cluster, p: Place)
  {
    var groups, nodes, guests := OrNothing(c.groups), OrNothing(c.nodes), OrNothing(c.guests);
    match p
    case Datacenter => true
    case GroupRules(g) => g != "" && exists i :: 0 <= i < |groups| && groups[i].isDict && groups[i].group == Some(g)
    case NodeRules(n) =>
      n != "" && exists i :: 0 <= i < |nodes| && nodes[i].isDict && nodes[i].node == Some(n)
                          && (nodes[i].status == "" || nodes[i].status == "online" || nodes[i].status == "unknown")
    case GuestRules(n, vmid, lxc) =>
      n != "" && exists i :: 0 <= i < |guests| && guests[i].isDict && guests[i].vmidTruthy
                          && guests[i].node == Some(n) && guests[i].vmid == Some(vmid) && guests[i].lxc == lxc
  }

  lemma {:induction false} GroupPlacesAre(items: seq<GroupItem>, p: Place)
    ensures p in GroupPlaces(items) <==>
            p.GroupRules? && exists i :: 0 <= i < |items| && WantedGroup(items[i]) && items[i].group == Some(p.group)
  {
    if items != [] {
      GroupPlacesAre(items[..|items| - 1], p);
      assert forall i :: 0 <= i < |items| - 1 ==> items[..|items| - 1][i] == items[i];
    }
  }

  lemma {:induction false} NodePlacesAre(items: seq<NodeItem>, p: Place)
    ensures p in NodePlaces(items) <==>
            p.NodeRules? && exists i :: 0 <= i < |items| && WantedNode(items[i]) && items[i].node == Some(p.node)
  {
    if items != [] {
      NodePlacesAre(items[..|items| - 1], p);
      assert forall i :: 0 <= i < |items| - 1 ==> items[..|items| - 1][i] == items[i];
    }
  }

  lemma {:induction false} GuestPlacesAre(items: seq<GuestItem>, p: Place)
    ensures p in GuestPlaces(items) <==>
            (p.GuestRules? && exists i :: (0 <= i < |items| && WantedGuest(items[i])
              && items[i].node == Some(p.host) && items[i].vmid == Some(p.vmid) && items[i].lxc == p.lxc))
  {
    if items != [] {
      GuestPlacesAre(items[..|items| - 1], p);
      assert forall i :: 0 <= i < |items| - 1 ==> items[..|items| - 1][i] == items[i];
    }
  }

  lemma PlacesAreListed(c: Cluster, p: Place)
    ensures p in Places(c) <==> Listed(c, p)
  {
    GroupPlacesAre(OrNothing(c.groups), p);
    NodePlacesAre(OrNothing(c.nodes), p);
    GuestPlacesAre(OrNothing(c.guests), p);
  }

  lemma {:induction false} HitsAre(p: Place, rules: seq<Rule>, kind: ObjectKind, name: string, u: Usage)
    ensures u in Hits(p, rules, kind, name) <==>
            exists i :: 0 <= i < |rules| && RuleMatches(rules[i], kind, name) && UsageOf(p, rules[i]) == u
  {
    if rules != [] {
      HitsAre(p, rules[..|rules| - 1], kind, name, u);
      assert forall i :: 0 <= i < |rules| - 1 ==> rules[..|rules| - 1][i] == rules[i];
    }
  }

  lemma {:induction false} HitsInAre(c: Cluster, places: seq<Place>, kind: ObjectKind, name: string, u: Usage)
    ensures u in HitsIn(c, places, kind, name) <==> exists j :: 0 <= j < |places| && u in HitsAt(c, places[j], kind, name)
  {
    if places != [] {
      HitsInAre(c, places[..|places| - 1], kind, name, u);
      assert forall i :: 0 <= i < |places| - 1 ==> places[..|places| - 1][i] == places[i];
    }
  }

  /** A matching rule of a listed place whose rules could be read. */
  ghost predicate IsMatch(c: Cluster, kind: ObjectKind, name: string, p: Place, i: nat, u: Usage)
  {
    && Listed(c, p) && c.rulesAt(p).Some? && i < |c.rulesAt(p).value|
    && RuleMatches(c.rulesAt(p).value[i], kind, name) && u == UsageOf(p, c.rulesAt(p).value[i])
  }

  /** Soundness always: what is reported is a rule of a listed place that matches by exact token. */
  lemma UsageIsSound(c: Cluster, kind: ObjectKind, name: string, u: Usage)
    requires u in HitsIn(c, Places(c), kind, name)
    ensures exists i :: IsMatch(c, kind, name, u.place, i, u)
  {
    HitsInAre(c, Places(c), kind, name, u);
    var j :| 0 <= j < |Places(c)| && u in HitsAt(c, Places(c)[j], kind, name);
    var p := Places(c)[j];
    PlacesAreListed(c, p);
    HitsAre(p, OrNothing(c.rulesAt(p)), kind, name, u);
    var i: nat :| i < |OrNothing(c.rulesAt(p))| && RuleMatches(OrNothing(c.rulesAt(p))[i], kind, name) && UsageOf(p, OrNothing(c.rulesAt(p))[i]) == u;
    assert IsMatch(c, kind, name, u.place, i, u);
  }

  /** Completeness when the search does not flag itself incomplete: every place it goes to was read,
      and every matching rule there is reported. */
  lemma UsageIsComplete(c: Cluster, kind: ObjectKind, name: string, p: Place, i: nat)
    requires !Incomplete(c) && Listed(c, p)
    ensures c.groups.Some? && c.nodes.Some? && c.guests.Some? && c.rulesAt(p).Some?
    ensures i < |c.rulesAt(p).value| && RuleMatches(c.rulesAt(p).value[i], kind, name) ==>
              UsageOf(p, c.rulesAt(p).value[i]) in HitsIn(c, Places(c), kind, name)
  {
    PlacesAreListed(c, p);
    var j :| 0 <= j < |Places(c)| && Places(c)[j] == p;
    if i < |c.rulesAt(p).value| && RuleMatches(c.rulesAt(p).value[i], kind, name) {
      var u := UsageOf(p, c.rulesAt(p).value[i]);
      HitsAre(p, c.rulesAt(p).value, kind, name, u);
      HitsInAre(c, Places(c), kind, name, u);
    }
  }

  /** What is reported of a security group: exactly the rules of type "group" whose action is its
      name, at the listed places that could be read; source and destination play no part. */
  lemma GroupUsageIff(c: Cluster, name: string, u: Usage)
    ensures u in HitsIn(c, Places(c), SecurityGroup, name) <==>
            Listed(c, u.place) && c.rulesAt(u.place).Some? &&
            var rules := c.rulesAt(u.place).value;
            exists i :: 0 <= i < |rules| && rules[i].Rule? && rules[i].ruleType == "group" && rules[i].action == Some(name)
                     && u.pos == rules[i].pos && u.summary == rules[i].summary
  {
    UsageIff(c, SecurityGroup, name, u);
    if i: nat :| IsMatch(c, SecurityGroup, name, u.place, i, u) {
      assert c.rulesAt(u.place).value[i].pos == u.pos;
    }
    if Listed(c, u.place) && c.rulesAt(u.place).Some? {
      var rules := c.rulesAt(u.place).value;
      if i: nat :| i < |rules| && rules[i].Rule? && rules[i].ruleType == "group" && rules[i].action == Some(name)
                   && u.pos == rules[i].pos && u.summary == rules[i].summary
      {
        assert IsMatch(c, SecurityGroup, name, u.place, i, u);
      }
    }
  }

  lemma UsageIff(c: Cluster, kind: ObjectKind, name: string, u: Usage)
    ensures u in HitsIn(c, Places(c), kind, name) <==> exists i :: IsMatch(c, kind, name, u.place, i, u)
  {
    if u in HitsIn(c, Places(c), kind, name) { UsageIsSound(c, kind, name, u); }
    if i :| IsMatch(c, kind, name, u.place, i, u) {
      PlacesAreListed(c, u.place);
      HitsAre(u.place, c.rulesAt(u.place).value, kind, name, u);
      HitsInAre(c, Places(c), kind, name, u);
    }
  }

  // ── what an unflagged answer covers ────────────────────────────────────────

  /** The place an item speaks of, whatever its status; an item without the fields names none. */
  function PlaceOfGroup(g: GroupItem): Option<Place>
  {
    if g.isDict && Named(g.group) then Some(GroupRules(g.group.value)) else None
  }

  function PlaceOfNode(n: NodeItem): Option<Place>
  {
    if n.isDict && Named(n.node) then Some(NodeRules(n.node.value)) else None
  }

  function PlaceOfGuest(v: GuestItem): Option<Place>
  {
    if v.isDict && v.vmid.Some? && Named(v.node) then Some(GuestRules(v.node.value, v.vmid.value, v.lxc)) else None
  }

  /** Some item of the three reads speaks of `p`. */
  ghost predicate SpokenOf(c: Cluster, p: Option<Place>)
  {
    || (exists g :: g in OrNothing(c.groups) && PlaceOfGroup(g) == p)
    || (exists n :: n in OrNothing(c.nodes) && PlaceOfNode(n) == p)
    || (exists v :: v in OrNothing(c.guests) && PlaceOfGuest(v) == p)
  }

  /** The place is known, was read, and every matching rule there is reported. */
  ghost predicate Covered(c: Cluster, kind: ObjectKind, name: string, p: Option<Place>)
  {
    && p.Some? && c.rulesAt(p.value).Some?
    && forall r :: r in c.rulesAt(p.value).value && RuleMatches(r, kind, name) ==>
         UsageOf(p.value, r) in HitsIn(c, Places(c), kind, name)
  }

  /** What the documentation promises of an answer without the flag. */
  ghost predicate CoversAll(c: Cluster, kind: ObjectKind, name: string)
  {
    Covered(c, kind, name, Some(Datacenter)) && forall p :: SpokenOf(c, p) ==> Covered(c, kind, name, p)
  }

  /** Every item has one the search goes to that speaks of the same place. */
  ghost predicate GoesEverywhere(c: Cluster)
  {
    forall p :: SpokenOf(c, p) ==> p.Some? && Listed(c, p.value)
  }

  predicate ListsRead(c: Cluster) { c.groups.Some? && c.nodes.Some? && c.guests.Some? }

  /** The same lists with other rules behind the places. */
  function WithRules(c: Cluster, rulesAt: Place -> Option<seq<Rule>>): Cluster
  {
    Cluster(c.groups, c.nodes, c.guests, rulesAt)
  }

  lemma ListedIsCovered(c: Cluster, kind: ObjectKind, name: string, p: Place)
    requires !Incomplete(c) && Listed(c, p)
    ensures Covered(c, kind, name, Some(p))
  {
    UsageIsComplete(c, kind, name, p, 0);
    forall r | r in c.rulesAt(p).value && RuleMatches(r, kind, name)
      ensures UsageOf(p, r) in HitsIn(c, Places(c), kind, name)
    {
      var i: nat :| i < |c.rulesAt(p).value| && c.rulesAt(p).value[i] == r;
      UsageIsComplete(c, kind, name, p, i);
    }
  }

  /** Everything can be read but, perhaps, one place. */
  function AllButOne(p: Place, there: Option<seq<Rule>>): Place -> Option<seq<Rule>>
  {
    q => if q == p then there else Some([])
  }

  /** A place the search does not go to raises no flag, and whatever is used there goes unreported. */
  lemma SkippedPlaceGoesUnnoticed(c: Cluster, kind: ObjectKind, name: string, p: Place, there: Option<seq<Rule>>)
    requires ListsRead(c) && !Listed(c, p)
    ensures var d := WithRules(c, AllButOne(p, there)); !Incomplete(d) && HitsIn(d, Places(d), kind, name) == []
  {
    var d := WithRules(c, AllButOne(p, there));
    PlacesAreListed(c, p);
    assert Places(d) == Places(c);
    NothingElsewhere(d, Places(d), kind, name, p);
  }

  lemma {:induction false} NothingElsewhere(c: Cluster, places: seq<Place>, kind: ObjectKind, name: string, p: Place)
    requires p !in places && forall q :: q != p ==> c.rulesAt(q) == Some([])
    ensures HitsIn(c, places, kind, name) == []
  {
    if places != [] {
      assert places[|places| - 1] in places;
      NothingElsewhere(c, places[..|places| - 1], kind, name, p);
    }
  }

  /** The promise is kept, whatever the reads return, if and only if a list could not be read or every
      item has one the search goes to that speaks of the same place. */
  lemma UnflaggedCoversAllIff(c: Cluster)
    ensures (forall rulesAt: Place -> Option<seq<Rule>>, kind: ObjectKind, name: string ::
               !Incomplete(WithRules(c, rulesAt)) ==> CoversAll(WithRules(c, rulesAt), kind, name))
            <==> (ListsRead(c) ==> GoesEverywhere(c))
  {
    if ListsRead(c) && !GoesEverywhere(c) {
      var p :| SpokenOf(c, p) && !(p.Some? && Listed(c, p.value));
      var q := if p.Some? then p.value else NodeRules("");
      SomewhereUncovered(c, p, q);
    }
    forall rulesAt: Place -> Option<seq<Rule>>, kind: ObjectKind, name: string
      | (ListsRead(c) ==> GoesEverywhere(c)) && !Incomplete(WithRules(c, rulesAt))
      ensures CoversAll(WithRules(c, rulesAt), kind, name)
    {
      EverywhereCovered(WithRules(c, rulesAt), kind, name);
    }
  }

  lemma EverywhereCovered(c: Cluster, kind: ObjectKind, name: string)
    requires !Incomplete(c) && GoesEverywhere(c)
    ensures CoversAll(c, kind, name)
  {
    ListedIsCovered(c, kind, name, Datacenter);
    forall p | SpokenOf(c, p) ensures Covered(c, kind, name, p) {
      ListedIsCovered(c, kind, name, p.value);
    }
  }

  lemma SomewhereUncovered(c: Cluster, p: Option<Place>, q: Place)
    requires ListsRead(c) && SpokenOf(c, p) && (p.Some? ==> p.value == q) && !Listed(c, q)
    ensures var d := WithRules(c, AllButOne(q, None)); !Incomplete(d) && !CoversAll(d, Alias, "")
  {
    SkippedPlaceGoesUnnoticed(c, Alias, "", q, None);
    assert SpokenOf(WithRules(c, AllButOne(q, None)), p);
  }

  /** An offline node is such a place: a rule there that uses the alias is neither read nor flagged. */
  lemma OfflineNodeGoesUnnoticed(kind: ObjectKind, name: string, rules: seq<Rule>)
    ensures var c := Cluster(Some([]), Some([NodeItem(true, Some("pve2"), "offline")]), Some([]),
                             AllButOne(NodeRules("pve2"), Some(rules)));
            !Incomplete(c) && HitsIn(c, Places(c), kind, name) == [] && !GoesEverywhere(c)
  {
    var c := Cluster(Some([]), Some([NodeItem(true, Some("pve2"), "offline")]), Some([]), AllButOne(NodeRules("pve2"), Some(rules)));
    assert !Listed(c, NodeRules("pve2"));
    SkippedPlaceGoesUnnoticed(c, kind, name, NodeRules("pve2"), Some(rules));
    var n := NodeItem(true, Some("pve2"), "offline");
    assert n in OrNothing(c.nodes) && PlaceOfNode(n) == Some(NodeRules("pve2"));
  }

  // ── in what order ──────────────────────────────────────────────────────────

  lemma {:induction false} GroupPlacesConcat(a: seq<GroupItem>, b: seq<GroupItem>)
    ensures GroupPlaces(a + b) == GroupPlaces(a) + GroupPlaces(b)
  {
    if b == [] { assert a + b == a; } else {
      assert (a + b)[..|a + b| - 1] == a + b[..|b| - 1];
      GroupPlacesConcat(a, b[..|b| - 1]);
    }
  }

  lemma {:induction false} NodePlacesConcat(a: seq<NodeItem>, b: seq<NodeItem>)
    ensures NodePlaces(a + b) == NodePlaces(a) + NodePlaces(b)
  {
    if b == [] { assert a + b == a; } else {
      assert (a + b)[..|a + b| - 1] == a + b[..|b| - 1];
      NodePlacesConcat(a, b[..|b| - 1]);
    }
  }

  lemma {:induction false} GuestPlacesConcat(a: seq<GuestItem>, b: seq<GuestItem>)
    ensures GuestPlaces(a + b) == GuestPlaces(a) + GuestPlaces(b)
  {
    if b == [] { assert a + b == a; } else {
      assert (a + b)[..|a + b| - 1] == a + b[..|b| - 1];
      GuestPlacesConcat(a, b[..|b| - 1]);
    }
  }

  lemma {:induction false} HitsConcat(p: Place, a: seq<Rule>, b: seq<Rule>, kind: ObjectKind, name: string)
    ensures Hits(p, a + b, kind, name) == Hits(p, a, kind, name) + Hits(p, b, kind, name)
  {
    if b == [] { assert a + b == a; } else {
      assert (a + b)[..|a + b| - 1] == a + b[..|b| - 1];
      HitsConcat(p, a, b[..|b| - 1], kind, name);
    }
  }

  lemma {:induction false} HitAtPosition(p: Place, rules: seq<Rule>, kind: ObjectKind, name: string, i: nat)
    requires i < |rules| && RuleMatches(rules[i], kind, name)
    ensures Hits(p, rules, kind, name) == Hits(p, rules[..i], kind, name) + [Usage(p, rules[i].pos, rules[i].summary)] + Hits(p, rules[i + 1..], kind, name)
  {
    assert rules == rules[..i] + ([rules[i]] + rules[i + 1..]);
    HitsConcat(p, rules[..i], [rules[i]] + rules[i + 1..], kind, name);
    HitsConcat(p, [rules[i]], rules[i + 1..], kind, name);
  }

  // ── how often ──────────────────────────────────────────────────────────────

  function From(p: Place, usages: seq<Usage>): seq<Usage>
  {
    if usages == [] then []
    else
      var init, last := From(p, usages[..|usages| - 1]), usages[|usages| - 1];
      if last.place == p then init + [last] else init
  }

  lemma {:induction false} FromConcat(p: Place, a: seq<Usage>, b: seq<Usage>)
    ensures From(p, a + b) == From(p, a) + From(p, b)
  {
    if b == [] {
      assert a + b == a;
    } else {
      assert (a + b)[..|a + b| - 1] == a + b[..|b| - 1];
      FromConcat(p, a, b[..|b| - 1]);
    }
  }

  lemma {:induction false} FromHits(p: Place, q: Place, rules: seq<Rule>, kind: ObjectKind, name: string)
    ensures From(p, Hits(q, rules, kind, name)) == if p == q then Hits(q, rules, kind, name) else []
  {
    if rules != [] { FromHits(p, q, rules[..|rules| - 1], kind, name); }
  }

  function Repeated(usages: seq<Usage>, times: nat): seq<Usage>
  {
    if times == 0 then [] else Repeated(usages, times - 1) + usages
  }

  lemma CountLast(places: seq<Place>, p: Place)
    requires places != []
    ensures multiset(places)[p] == multiset(places[..|places| - 1])[p] + if places[|places| - 1] == p then 1 else 0
  {
    assert places == places[..|places| - 1] + [places[|places| - 1]];
  }

  lemma {:induction false} FromHitsIn(c: Cluster, places: seq<Place>, kind: ObjectKind, name: string, p: Place)
    ensures From(p, HitsIn(c, places, kind, name)) == Repeated(HitsAt(c, p, kind, name), multiset(places)[p])
  {
    if places != [] {
      var init, last := places[..|places| - 1], places[|places| - 1];
      FromHitsIn(c, init, kind, name, p);
      FromConcat(p, HitsIn(c, init, kind, name), HitsAt(c, last, kind, name));
      FromHits(p, last, OrNothing(c.rulesAt(last)), kind, name);
      CountLast(places, p);
    }
  }

  /** The entries of a place are its matching rules, in order, once for every time it is listed. */
  lemma ReportedPerListing(c: Cluster, kind: ObjectKind, name: string, p: Place)
    ensures From(p, HitsIn(c, Places(c), kind, name)) == Repeated(HitsAt(c, p, kind, name), multiset(Places(c))[p])
    ensures multiset(Places(c))[p] > 0 <==> Listed(c, p)
  {
    PlacesAreListed(c, p);
    FromHitsIn(c, Places(c), kind, name, p);
  }
}
