/** HA rules: the validators and printers of `backend/models/ha.py` and the parsers of
    `backend/routers/ha.py`. */
module HaRules {
  import opened Text

  datatype NodeEntry = NodeEntry(node: string, priority: Option<int>)

  // ── validation ─────────────────────────────────────────────────────────────

  /** `HaRuleNodeInput`: a name that is not blank, stored stripped; a priority from 0 to 1000. */
  function ValidatedNode(rawName: string, priority: Option<int>): Option<NodeEntry>
  {
    if rawName == "" || Strip(rawName) == "" || (priority.Some? && !(0 <= priority.value <= 1000)) then None
    else Some(NodeEntry(Strip(rawName), priority))
  }

  /** What validation leaves. */
  predicate ValidNode(n: NodeEntry)
  {
    n.node != "" && Trimmed(n.node) && (n.priority.Some? ==> 0 <= n.priority.value <= 1000)
  }

  /** A node is accepted exactly when something is left of its name and its priority, if any, lies
      between 0 and 1000; kept are the stripped name and the priority. */
  lemma ValidatedNodeIsValid(rawName: string, priority: Option<int>)
    ensures ValidatedNode(rawName, priority).Some? <==>
            Strip(rawName) != "" && (priority == None || (priority.value >= 0 && priority.value <= 1000))
    ensures ValidatedNode(rawName, priority).Some? ==>
              && ValidNode(ValidatedNode(rawName, priority).value)
              && ValidatedNode(rawName, priority).value == NodeEntry(Strip(rawName), priority)
  {
    StripIsTrimmed(rawName);
  }

  /** `^(vm|ct):\d+$`; `isDigit` is the regular expression's `\d`. */
  predicate ValidSid(sid: string, isDigit: char -> bool)
  {
    && |sid| > 3 && (sid[..3] == "vm:" || sid[..3] == "ct:")
    && forall i :: 3 <= i < |sid| ==> isDigit(sid[i])
  }

  /** A resource id is "vm:" or "ct:" and at least one digit. */
  lemma ValidSidIff(sid: string, isDigit: char -> bool)
    ensures ValidSid(sid, isDigit) <==>
            exists digits :: digits != "" && (forall c :: c in digits ==> isDigit(c)) && (sid == "vm:" + digits || sid == "ct:" + digits)
  {
    if ValidSid(sid, isDigit) {
      var digits := sid[3..];
      assert sid == sid[..3] + digits;
      assert forall i :: 0 <= i < |digits| ==> digits[i] == sid[i + 3];
    }
  }

  datatype SidError = InvalidSid(sid: string) | DuplicateSid(sid: string)
  datatype SidResult = Sids(out: seq<string>) | Refused(error: SidError)

  predicate Distinct(s: seq<string>) { forall i, j :: 0 <= i < j < |s| ==> s[i] != s[j] }

  predicate AllValid(sids: seq<string>, isDigit: char -> bool)
  {
    forall i :: 0 <= i < |sids| ==> ValidSid(sids[i], isDigit)
  }

  /** Entry `i` is the first that is invalid or repeats an earlier one, and the error says which. */
  predicate FirstOffence(sids: seq<string>, isDigit: char -> bool, i: nat, error: SidError)
  {
    && i < |sids| && error.sid == sids[i]
    && AllValid(sids[..i], isDigit) && Distinct(sids[..i])
    && if error.InvalidSid? then !ValidSid(sids[i], isDigit) else ValidSid(sids[i], isDigit) && sids[i] in sids[..i]
  }

  /** The error names the first offending entry. */
  ghost predicate NamesFirstOffence(sids: seq<string>, isDigit: char -> bool, error: SidError)
  {
    exists i :: 0 <= i < |sids| && FirstOffence(sids, isDigit, i, error)
  }

  lemma InvalidOffends(sids: seq<string>, isDigit: char -> bool, k: nat)
    requires k < |sids| && AllValid(sids[..k], isDigit) && Distinct(sids[..k]) && !ValidSid(sids[k], isDigit)
    ensures !AllValid(sids, isDigit) && NamesFirstOffence(sids, isDigit, InvalidSid(sids[k]))
  {
    assert FirstOffence(sids, isDigit, k, InvalidSid(sids[k]));
  }

  lemma DuplicateOffends(sids: seq<string>, isDigit: char -> bool, k: nat)
    requires k < |sids| && AllValid(sids[..k], isDigit) && Distinct(sids[..k])
    requires ValidSid(sids[k], isDigit) && sids[k] in sids[..k]
    ensures !Distinct(sids) && NamesFirstOffence(sids, isDigit, DuplicateSid(sids[k]))
  {
    assert FirstOffence(sids, isDigit, k, DuplicateSid(sids[k]));
    var j :| 0 <= j < k && sids[..k][j] == sids[k];
    assert sids[j] == sids[k];
  }

  lemma CleanPrefixGrows(sids: seq<string>, isDigit: char -> bool, k: nat)
    requires k < |sids| && AllValid(sids[..k], isDigit) && Distinct(sids[..k])
    requires ValidSid(sids[k], isDigit) && sids[k] !in sids[..k]
    ensures AllValid(sids[..k + 1], isDigit) && Distinct(sids[..k + 1])
    ensures sids[..k + 1] == sids[..k] + [sids[k]]
  {
    var s := sids[..k + 1];
    forall i, j | 0 <= i < j < |s| ensures s[i] != s[j] {
      assert sids[..k][i] == s[i];
      if j < k { assert sids[..k][j] == s[j]; }
    }
    forall i | 0 <= i < |s| ensures ValidSid(s[i], isDigit) {
      if i < k { assert sids[..k][i] == s[i]; }
    }
  }

  /** `_valid_resources`: every entry stripped, all of them valid and no two equal, or the first
      offending entry is named. */
  method ValidResources(v: seq<string>, isDigit: char -> bool) returns (r: SidResult)
    ensures r.Sids? <==> AllValid(Stripped(v), isDigit) && Distinct(Stripped(v))
    ensures r.Sids? ==> r.out == Stripped(v)
    ensures r.Refused? ==> NamesFirstOffence(Stripped(v), isDigit, r.error)
  {
    ghost var sids := Stripped(v);
    var seen: set<string> := {};
    var out: seq<string> := [];
    for k := 0 to |v|
      invariant out == sids[..k] && AllValid(sids[..k], isDigit) && Distinct(sids[..k])
      invariant forall s :: s in seen <==> s in out
    {
      var sid := Strip(v[k]);
      assert sid == sids[k];
      if !ValidSid(sid, isDigit) {
        InvalidOffends(sids, isDigit, k);
        return Refused(InvalidSid(sid));
      }
      if sid in seen {
        DuplicateOffends(sids, isDigit, k);
        return Refused(DuplicateSid(sid));
      }
      CleanPrefixGrows(sids, isDigit, k);
      seen := seen + {sid};
      out := out + [sid];
    }
    assert sids[..|v|] == sids;
    return Sids(out);
  }

  datatype RuleError = NoNode | DuplicateNode(node: string) | NoResource | BadAffinity | TooFewResources
  datatype RuleVerdict = Accepted | RuleRefused(error: RuleError)

  predicate DistinctNodes(nodes: seq<NodeEntry>) { forall i, j :: 0 <= i < j < |nodes| ==> nodes[i].node != nodes[j].node }

  /** `_check_type_fields`. */
  method CheckTypeFields(ruleType: string, nodes: seq<NodeEntry>, resources: seq<string>, affinity: Option<string>) returns (r: RuleVerdict)
    ensures ruleType == "node-affinity" ==> (r == Accepted <==> nodes != [] && DistinctNodes(nodes) && resources != [])
    ensures ruleType == "resource-affinity" ==>
      (r == Accepted <==> (affinity == Some("positive") || affinity == Some("negative")) && |resources| >= 2)
    ensures ruleType != "node-affinity" && ruleType != "resource-affinity" ==> r == Accepted
    ensures ruleType == "node-affinity" ==>
      && (r == RuleRefused(NoNode) <==> nodes == [])
      && (r.RuleRefused? && r.error.DuplicateNode? <==> !DistinctNodes(nodes))
      && (r == RuleRefused(NoResource) <==> nodes != [] && DistinctNodes(nodes) && resources == [])
    ensures ruleType == "resource-affinity" ==>
      && (r == RuleRefused(BadAffinity) <==> affinity != Some("positive") && affinity != Some("negative"))
      && (r == RuleRefused(TooFewResources) <==> (affinity == Some("positive") || affinity == Some("negative")) && |resources| < 2)
    ensures r.RuleRefused? && r.error.DuplicateNode? ==>
      exists i, j :: 0 <= i < j < |nodes| && nodes[i].node == nodes[j].node == r.error.node
  {
    if ruleType == "node-affinity" {
      if nodes == [] { return RuleRefused(NoNode); }
      var seen: set<string> := {};
      for k := 0 to |nodes|
        invariant seen == set i | 0 <= i < k :: nodes[i].node
        invariant DistinctNodes(nodes[..k])
      {
        if nodes[k].node in seen { return RuleRefused(DuplicateNode(nodes[k].node)); }
        seen := seen + {nodes[k].node};
        assert nodes[..k + 1] == nodes[..k] + [nodes[k]];
      }
      assert nodes[..|nodes|] == nodes;
      if resources == [] { return RuleRefused(NoResource); }
    } else if ruleType == "resource-affinity" {
      if !(affinity == Some("positive") || affinity == Some("negative")) { return RuleRefused(BadAffinity); }
      if |resources| < 2 { return RuleRefused(TooFewResources); }
    }
    return Accepted;
  }

  // ── printing ───────────────────────────────────────────────────────────────

  function NodePart(n: NodeEntry): string
    requires n.priority.Some? ==> n.priority.value >= 0
  {
    if n.priority.Some? then n.node + ":" + Decimal(n.priority.value) else n.node
  }

  predicate Printable(nodes: seq<NodeEntry>)
  {
    forall i :: 0 <= i < |nodes| && nodes[i].priority.Some? ==> nodes[i].priority.value >= 0
  }

  function NodeParts(nodes: seq<NodeEntry>): seq<string>
    requires Printable(nodes)
  {
    seq(|nodes|, i requires 0 <= i < |nodes| => NodePart(nodes[i]))
  }

  /** `_nodes_param`. */
  method NodesParam(nodes: seq<NodeEntry>) returns (text: string)
    requires Printable(nodes)
    ensures text == Join(NodeParts(nodes), ',')
  {
    var parts: seq<string> := [];
    for k := 0 to |nodes|
      invariant parts == NodeParts(nodes)[..k]
    {
      parts := parts + [NodePart(nodes[k])];
    }
    assert NodeParts(nodes)[..|nodes|] == NodeParts(nodes);
    text := Join(parts, ',');
  }

  /** `_resources_param`. */
  function ResourcesParam(resources: seq<string>): string { Join(resources, ',') }

  // ── parsing ────────────────────────────────────────────────────────────────

  /** `_i` on text. */
  function IntOrNone(s: string): Option<int> { if s == "" then None else ParseInt(s) }

  function ParsedPart(rawPart: string): seq<NodeEntry>
  {
    var part := Strip(rawPart);
    if part == "" then []
    else if ':' in part then
      var (name, prio) := Partition(part, ':');
      [NodeEntry(Strip(name), IntOrNone(prio))]
    else [NodeEntry(part, None)]
  }

  function ParsedParts(parts: seq<string>): seq<NodeEntry>
  {
    if parts == [] then [] else ParsedPart(parts[0]) + ParsedParts(parts[1..])
  }

  function ParsedNodes(raw: Option<string>): seq<NodeEntry>
  {
    if raw.None? || raw.value == "" then [] else ParsedParts(Split(raw.value, ','))
  }

  /** `_parse_rule_nodes`. */
  method ParseRuleNodes(raw: Option<string>) returns (out: seq<NodeEntry>)
    ensures out == ParsedNodes(raw)
  {
    out := [];
    if raw.None? || raw.value == "" { return; }
    var parts := Split(raw.value, ',');
    for i := 0 to |parts|
      invariant ParsedParts(parts) == out + ParsedParts(parts[i..])
    {
      out := out + ParsedPart(parts[i]);
    }
  }

  /** The forms a `resources` value may take. */
  datatype RawResources = Absent | Textual(text: string) | Listed(items: seq<string>)

  function ParsedSid(rawPart: string): seq<string>
  {
    var stripped := Strip(rawPart);
    var sid := if "service:" <= stripped then stripped[|"service:"|..] else stripped;
    if sid == "" then [] else [sid]
  }

  function ParsedSids(parts: seq<string>): seq<string>
  {
    if parts == [] then [] else ParsedSid(parts[0]) + ParsedSids(parts[1..])
  }

  function ParsedResources(raw: RawResources): seq<string>
  {
    match raw
    case Absent => []
    case Textual(text) => ParsedSids(Split(text, ','))
    case Listed(items) => ParsedSids(items)
  }

  /** `_parse_resources_list`. */
  method ParseResourcesList(raw: RawResources) returns (out: seq<string>)
    ensures out == ParsedResources(raw)
  {
    out := [];
    if raw.Absent? { return; }
    var items := if raw.Listed? then raw.items else Split(raw.text, ',');
    for i := 0 to |items|
      invariant ParsedSids(items) == out + ParsedSids(items[i..])
    {
      assert items[i..][1..] == items[i + 1..];
      var entry := ParsedSid(items[i]);
      assert out + (entry + ParsedSids(items[i + 1..])) == (out + entry) + ParsedSids(items[i + 1..]);
      out := out + entry;
    }
  }

  // ── parsing undoes printing: resources ─────────────────────────────────────

  /** What `\d` may be: no digit is white space or a comma. */
  ghost predicate DigitsAreClean(isDigit: char -> bool)
  {
    forall c: char :: isDigit(c) ==> !IsSpace(c) && c != ','
  }

  lemma SidReadsBack(sid: string, isDigit: char -> bool)
    requires ValidSid(sid, isDigit) && DigitsAreClean(isDigit)
    ensures ParsedSid(sid) == [sid] && ',' !in sid
  {
    assert sid[0] == sid[..3][0];
    assert isDigit(sid[|sid| - 1]);
    StripTrimmed(sid);
    assert forall i :: 0 <= i < 3 ==> sid[i] == sid[..3][i];
  }

  lemma {:induction false} SidsReadBack(sids: seq<string>, isDigit: char -> bool)
    requires DigitsAreClean(isDigit) && forall i :: 0 <= i < |sids| ==> ValidSid(sids[i], isDigit)
    ensures ParsedSids(sids) == sids && NoneContains(sids, ',')
  {
    if sids != [] {
      SidReadsBack(sids[0], isDigit);
      SidsReadBack(sids[1..], isDigit);
    }
  }

  /** Parsing the printed resources of a validated rule returns the same list. */
  lemma ResourcesRoundTrip(resources: seq<string>, isDigit: char -> bool)
    requires DigitsAreClean(isDigit) && forall i :: 0 <= i < |resources| ==> ValidSid(resources[i], isDigit)
    ensures ParsedResources(Textual(ResourcesParam(resources))) == resources
    ensures ParsedResources(Listed(resources)) == resources
  {
    SidsReadBack(resources, isDigit);
    if resources == [] {
      assert Split("", ',') == [""];
      assert Strip("") == "";
    } else {
      SplitJoin(resources, ',');
    }
  }

  // ── parsing undoes printing: nodes ─────────────────────────────────────────

  predicate AllNodesValid(nodes: seq<NodeEntry>): (r: bool)
    ensures r ==> Printable(nodes)
  {
    forall i :: 0 <= i < |nodes| ==> ValidNode(nodes[i])
  }

  predicate NoSeparators(nodes: seq<NodeEntry>)
  {
    forall i :: 0 <= i < |nodes| ==> ',' !in nodes[i].node && ':' !in nodes[i].node
  }

  lemma NodeReadsBack(n: NodeEntry)
    requires ValidNode(n) && ',' !in n.node && ':' !in n.node
    ensures ParsedPart(NodePart(n)) == [n] && ',' !in NodePart(n) && NodePart(n) != ""
  {
    var part := NodePart(n);
    StripTrimmed(n.node);
    if n.priority.Some? {
      var d := Decimal(n.priority.value);
      ParseDecimal(n.priority.value);
      assert part == n.node + [':'] + d;
      assert part[0] == n.node[0] && part[|part| - 1] == d[|d| - 1];
      StripTrimmed(part);
      PartitionOf(n.node, ':', d);
      assert ':' in part;
    }
  }

  lemma {:induction false} NodesReadBack(nodes: seq<NodeEntry>)
    requires AllNodesValid(nodes) && NoSeparators(nodes)
    ensures ParsedParts(NodeParts(nodes)) == nodes && NoneContains(NodeParts(nodes), ',')
    ensures nodes != [] ==> NodeParts(nodes)[0] != ""
  {
    if nodes != [] {
      NodeReadsBack(nodes[0]);
      NodesReadBack(nodes[1..]);
      assert NodeParts(nodes)[1..] == NodeParts(nodes[1..]);
      assert nodes == [nodes[0]] + nodes[1..];
    }
  }

  /** What parsing returns never holds a separator in a name. */
  lemma {:induction false} ParsedNamesAreFree(parts: seq<string>)
    requires NoneContains(parts, ',')
    ensures NoSeparators(ParsedParts(parts))
  {
    if parts != [] {
      var part := Strip(parts[0]);
      StripKeeps(parts[0], ',');
      if part != "" && ':' in part {
        StripKeeps(Partition(part, ':').0, ',');
        StripKeeps(Partition(part, ':').0, ':');
      }
      ParsedNamesAreFree(parts[1..]);
    }
  }

  /** Parsing the printed nodes of a validated rule returns the same names and priorities if and only
      if no name holds a comma or a colon. */
  lemma NodesRoundTripIffNoSeparators(nodes: seq<NodeEntry>)
    requires AllNodesValid(nodes)
    ensures ParsedNodes(Some(Join(NodeParts(nodes), ','))) == nodes <==> NoSeparators(nodes)
  {
    var parts := NodeParts(nodes);
    var text := Join(parts, ',');
    if NoSeparators(nodes) {
      NodesReadBack(nodes);
      if nodes != [] {
        SplitJoin(parts, ',');
        assert text != "";
      }
    }
    SplitPartsFree(text, ',');
    ParsedNamesAreFree(Split(text, ','));
  }

  // ── text the printers did not make ─────────────────────────────────────────

  /** One part of a node list, by what it spells: nothing, a bare name, or a name, a colon and a
      priority that is ignored unless it is a number. */
  lemma NodePartSpells(part: string)
    ensures Strip(part) == "" ==> ParsedPart(part) == []
    ensures Strip(part) != "" && ':' !in Strip(part) ==> ParsedPart(part) == [NodeEntry(Strip(part), None)]
    ensures forall name, prio :: ':' !in name && Strip(part) == name + ":" + prio ==>
              ParsedPart(part) == [NodeEntry(Strip(name), if prio == "" then None else ParseInt(prio))]
  {
    forall name, prio | ':' !in name && Strip(part) == name + ":" + prio
      ensures ParsedPart(part) == [NodeEntry(Strip(name), if prio == "" then None else ParseInt(prio))]
    {
      assert Strip(part) == name + [':'] + prio;
      PartitionOf(name, ':', prio);
    }
  }

  lemma {:induction false} ParsedPartsConcat(a: seq<string>, b: seq<string>)
    ensures ParsedParts(a + b) == ParsedParts(a) + ParsedParts(b)
  {
    if a == [] {
      assert a + b == b;
    } else {
      assert (a + b)[1..] == a[1..] + b;
      ParsedPartsConcat(a[1..], b);
    }
  }

  /** A node list is read part by part between the commas. */
  lemma NodesAroundComma(a: string, b: string)
    ensures a != "" && b != "" ==> ParsedNodes(Some(a + "," + b)) == ParsedNodes(Some(a)) + ParsedNodes(Some(b))
    ensures ',' !in a ==> ParsedNodes(Some(a)) == ParsedPart(a)
    ensures ParsedNodes(None) == []
  {
    assert a + "," + b == a + [','] + b;
    SplitAround(a, b, ',');
    ParsedPartsConcat(Split(a, ','), Split(b, ','));
    if ',' !in a {
      SplitOfFree(a, ',');
      assert [a][1..] == [] && (a == "" ==> Strip(a) == "");
    }
  }

  /** One part of a resource list: its stripped text without the prefix of a service. */
  lemma SidPartSpells(part: string, sid: string)
    ensures Strip(part) == "service:" + sid ==> ParsedSid(part) == if sid == "" then [] else [sid]
    ensures Strip(part) == sid && !("service:" <= sid) ==> ParsedSid(part) == if sid == "" then [] else [sid]
  {
    assert ("service:" + sid)[|"service:"|..] == sid;
  }

  lemma {:induction false} ParsedSidsConcat(a: seq<string>, b: seq<string>)
    ensures ParsedSids(a + b) == ParsedSids(a) + ParsedSids(b)
  {
    if a == [] {
      assert a + b == b;
    } else {
      assert (a + b)[1..] == a[1..] + b;
      ParsedSidsConcat(a[1..], b);
    }
  }

  /** A resource list is read part by part, between the commas of a text or entry by entry. */
  lemma ResourcesAroundComma(a: string, b: string, items: seq<string>, more: seq<string>)
    ensures ParsedResources(Textual(a + "," + b)) == ParsedResources(Textual(a)) + ParsedResources(Textual(b))
    ensures ',' !in a ==> ParsedResources(Textual(a)) == ParsedSid(a) == ParsedResources(Listed([a]))
    ensures ParsedResources(Listed(items + more)) == ParsedResources(Listed(items)) + ParsedResources(Listed(more))
    ensures ParsedResources(Absent) == [] == ParsedResources(Listed([]))
  {
    assert a + "," + b == a + [','] + b;
    SplitAround(a, b, ',');
    ParsedSidsConcat(Split(a, ','), Split(b, ','));
    ParsedSidsConcat(items, more);
    assert [a][1..] == [];
    if ',' !in a { SplitOfFree(a, ','); }
  }

  /** One printed node. */
  lemma PrintedNode(name: string, priority: nat)
    ensures NodePart(NodeEntry(name, None)) == name
    ensures NodePart(NodeEntry(name, Some(priority))) == name + ":" + Decimal(priority)
  {
  }
}
