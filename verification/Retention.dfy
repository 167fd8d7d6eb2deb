/** `BackupRetention` of `backend/models/vms.py`: printing to and parsing from Proxmox's
    `prune-backups` text. */
module Retention {
  import opened Text

  datatype Kind = Last | Daily | Weekly | Monthly

  datatype Retention = Retention(keepLast: Option<nat>, keepDaily: Option<nat>, keepWeekly: Option<nat>, keepMonthly: Option<nat>)

  function Name(k: Kind): string
  {
    match k case Last => "keep-last" case Daily => "keep-daily" case Weekly => "keep-weekly" case Monthly => "keep-monthly"
  }

  /** The parser's `mapping` dictionary. */
  function KindOf(name: string): Option<Kind>
  {
    if name == "keep-last" then Some(Last)
    else if name == "keep-daily" then Some(Daily)
    else if name == "keep-weekly" then Some(Weekly)
    else if name == "keep-monthly" then Some(Monthly)
    else None
  }

  function Field(r: Retention, k: Kind): Option<nat>
  {
    match k case Last => r.keepLast case Daily => r.keepDaily case Weekly => r.keepWeekly case Monthly => r.keepMonthly
  }

  // ── printing ───────────────────────────────────────────────────────────────

  function Part(k: Kind, n: nat): string { Name(k) + "=" + Decimal(n) }

  function PartOf(r: Retention, k: Kind): seq<string>
  {
    if Field(r, k).Some? then [Part(k, Field(r, k).value)] else []
  }

  function PartsOf(r: Retention, kinds: seq<Kind>): seq<string>
  {
    if kinds == [] then [] else PartOf(r, kinds[0]) + PartsOf(r, kinds[1..])
  }

  lemma PartsUnrolled(r: Retention)
    ensures PartsOf(r, KINDS) == PartOf(r, Last) + PartOf(r, Daily) + PartOf(r, Weekly) + PartOf(r, Monthly)
  {
    var k1, k2, k3 := KINDS[1..], KINDS[1..][1..], KINDS[1..][1..][1..];
    assert PartsOf(r, k3) == PartOf(r, Monthly) + PartsOf(r, k3[1..]);
    assert PartsOf(r, k2) == PartOf(r, Weekly) + PartsOf(r, k3);
    assert PartsOf(r, k1) == PartOf(r, Daily) + PartsOf(r, k2);
    assert PartsOf(r, KINDS) == PartOf(r, Last) + PartsOf(r, k1);
  }

  const KINDS := [Last, Daily, Weekly, Monthly]

  function ToParam(r: Retention): Option<string>
  {
    var parts := PartsOf(r, KINDS);
    if parts == [] then None else Some(Join(parts, ','))
  }

  /** `to_proxmox_param`. */
  method ToProxmoxParam(r: Retention) returns (text: Option<string>)
    ensures text == ToParam(r)
  {
    var parts := [];
    if r.keepLast.Some? { parts := parts + [Part(Last, r.keepLast.value)]; }
    assert parts == PartOf(r, Last);
    if r.keepDaily.Some? { parts := parts + [Part(Daily, r.keepDaily.value)]; }
    assert parts == PartOf(r, Last) + PartOf(r, Daily);
    if r.keepWeekly.Some? { parts := parts + [Part(Weekly, r.keepWeekly.value)]; }
    assert parts == PartOf(r, Last) + PartOf(r, Daily) + PartOf(r, Weekly);
    if r.keepMonthly.Some? { parts := parts + [Part(Monthly, r.keepMonthly.value)]; }
    assert parts == PartOf(r, Last) + PartOf(r, Daily) + PartOf(r, Weekly) + PartOf(r, Monthly);
    PartsUnrolled(r);
    text := if parts == [] then None else Some(Join(parts, ','));
  }

  // ── parsing ────────────────────────────────────────────────────────────────

  type Fields = map<Kind, int>

  /** One turn of the parser's loop. */
  function WithPart(fields: Fields, rawPart: string): Fields
  {
    var part := Strip(rawPart);
    if '=' !in part then fields
    else
      var (k, v) := Partition(part, '=');
      var kind := KindOf(k);
      var n := ParseInt(v);
      if kind.Some? && n.Some? then fields[kind.value := n.value] else fields
  }

  function WithParts(fields: Fields, parts: seq<string>): Fields
    decreases |parts|
  {
    if parts == [] then fields else WithParts(WithPart(fields, parts[0]), parts[1..])
  }

  /** The model constructor: a negative number is a validation error. */
  function Build(fields: Fields): Option<Retention>
  {
    if exists k: Kind :: k in fields && fields[k] < 0 then None
    else Some(Retention(Kept(fields, Last), Kept(fields, Daily), Kept(fields, Weekly), Kept(fields, Monthly)))
  }

  function Kept(fields: Fields, k: Kind): Option<nat>
  {
    if k in fields && fields[k] >= 0 then Some(fields[k]) else None
  }

  function FromParam(value: Option<string>): Option<Retention>
  {
    if value.None? || value.value == "" then Build(map[]) else Build(WithParts(map[], Split(value.value, ',')))
  }

  /** `from_proxmox_param`; `None` where the model refuses the numbers. */
  method FromProxmoxParam(value: Option<string>) returns (r: Option<Retention>)
    ensures r == FromParam(value)
  {
    if value.None? || value.value == "" { return Build(map[]); }
    var parts := Split(value.value, ',');
    var fields: Fields := map[];
    for i := 0 to |parts|
      invariant WithParts(map[], parts) == WithParts(fields, parts[i..])
    {
      assert parts[i..][1..] == parts[i + 1..];
      fields := WithPart(fields, parts[i]);
    }
    r := Build(fields);
  }

  // ── parsing undoes printing ────────────────────────────────────────────────

  lemma NameIsClean(k: Kind)
    ensures Name(k) != "" && !IsSpace(Name(k)[0]) && '=' !in Name(k) && ',' !in Name(k)
  {
  }

  lemma PartIsClean(k: Kind, n: nat)
    ensures Trimmed(Part(k, n)) && ',' !in Part(k, n) && Part(k, n) != ""
  {
    NameIsClean(k);
    var p := Part(k, n);
    assert p[0] == Name(k)[0];
    assert p[|p| - 1] == Decimal(n)[|Decimal(n)| - 1];
  }

  lemma ReadPart(fields: Fields, k: Kind, n: nat)
    ensures WithPart(fields, Part(k, n)) == fields[k := n]
  {
    PartIsClean(k, n);
    StripTrimmed(Part(k, n));
    NameIsClean(k);
    ParseDecimal(n);
    assert Part(k, n) == Name(k) + ['='] + Decimal(n);
    PartitionOf(Name(k), '=', Decimal(n));
  }

  /** The fields of a retention setting, for some of the kinds. */
  function Expected(r: Retention, kinds: seq<Kind>, fields: Fields): Fields
    decreases |kinds|
  {
    if kinds == [] then fields else Expected(r, kinds[1..], WithField(r, kinds[0], fields))
  }

  function WithField(r: Retention, k: Kind, fields: Fields): Fields
  {
    if Field(r, k).Some? then fields[k := Field(r, k).value] else fields
  }

  lemma {:induction false} ReadParts(r: Retention, kinds: seq<Kind>, fields: Fields)
    ensures WithParts(fields, PartsOf(r, kinds)) == Expected(r, kinds, fields)
    ensures NoneContains(PartsOf(r, kinds), ',')
    ensures PartsOf(r, kinds) != [] ==> PartsOf(r, kinds)[0] != ""
    decreases |kinds|
  {
    if kinds != [] {
      if Field(r, kinds[0]).Some? {
        var n := Field(r, kinds[0]).value;
        ReadPart(fields, kinds[0], n);
        PartIsClean(kinds[0], n);
        assert PartsOf(r, kinds)[1..] == PartsOf(r, kinds[1..]);
        ReadParts(r, kinds[1..], fields[kinds[0] := n]);
      } else {
        ReadParts(r, kinds[1..], fields);
        assert PartsOf(r, kinds) == PartsOf(r, kinds[1..]);
      }
    }
  }

  function AllFields(r: Retention): Fields
  {
    WithField(r, Monthly, WithField(r, Weekly, WithField(r, Daily, WithField(r, Last, map[]))))
  }

  lemma AllFieldsBuild(r: Retention)
    ensures Build(AllFields(r)) == Some(r)
  {
  }

  /** For every setting, any subset of fields and any sizes, parsing the printed text gives it back. */
  lemma ParsePrinted(r: Retention)
    ensures FromParam(ToParam(r)) == Some(r)
  {
    var parts := PartsOf(r, KINDS);
    ReadParts(r, KINDS, map[]);
    AllFieldsBuild(r);
    if parts != [] {
      SplitJoin(parts, ',');
      assert Join(parts, ',') != "" by { if |parts| > 1 { assert |Join(parts, ',')| >= 1; } }
    }
  }

  // ── the printed text, and text the printer did not make ────────────────────

  function Item(prefix: string, field: Option<nat>): seq<string>
  {
    if field.Some? then [prefix + Decimal(field.value)] else []
  }

  /** The printed text holds the given fields under Proxmox's names, in this order. */
  lemma PrintedItems(r: Retention)
    ensures var items := Item("keep-last=", r.keepLast) + Item("keep-daily=", r.keepDaily)
                         + Item("keep-weekly=", r.keepWeekly) + Item("keep-monthly=", r.keepMonthly);
            ToParam(r) == if items == [] then None else Some(Join(items, ','))
  {
    PartsUnrolled(r);
    PrintedItem(r, Last, "keep-last=");
    PrintedItem(r, Daily, "keep-daily=");
    PrintedItem(r, Weekly, "keep-weekly=");
    PrintedItem(r, Monthly, "keep-monthly=");
  }

  lemma PrintedItem(r: Retention, k: Kind, prefix: string)
    requires Name(k) + "=" == prefix
    ensures PartOf(r, k) == Item(prefix, Field(r, k))
  {
  }

  /** What a part of any text says of a field: its exact name, an equals sign and a number, with white
      space around the whole. */
  function Said(part: string, k: Kind): Option<int>
  {
    var t, prefix := Strip(part), Name(k) + "=";
    if prefix <= t then ParseInt(t[|prefix|..]) else None
  }

  /** The last part that says something decides. */
  function LastSaid(parts: seq<string>, k: Kind): Option<int>
  {
    if parts == [] then None
    else
      var word := Said(parts[|parts| - 1], k);
      if word.Some? then word else LastSaid(parts[..|parts| - 1], k)
  }

  function Read(fields: Fields, k: Kind): Option<int> { if k in fields then Some(fields[k]) else None }

  lemma KindOfIsName(name: string, k: Kind)
    ensures KindOf(name) == Some(k) <==> name == Name(k)
  {
  }

  lemma SaidCut(t: string, k: Kind)
    ensures Name(k) + "=" <= t <==> '=' in t && Partition(t, '=').0 == Name(k)
    ensures Name(k) + "=" <= t ==> Partition(t, '=').1 == t[|Name(k)| + 1..]
  {
    NameIsClean(k);
    if Name(k) + "=" <= t {
      assert t == Name(k) + ['='] + t[|Name(k)| + 1..];
      PartitionOf(Name(k), '=', t[|Name(k)| + 1..]);
    }
  }

  lemma PartSays(fields: Fields, part: string, k: Kind)
    ensures Read(WithPart(fields, part), k) == if Said(part, k).Some? then Said(part, k) else Read(fields, k)
  {
    var t := Strip(part);
    SaidCut(t, k);
    if '=' in t { KindOfIsName(Partition(t, '=').0, k); }
  }

  lemma {:induction false} WithLastPart(fields: Fields, parts: seq<string>, last: string)
    ensures WithParts(fields, parts + [last]) == WithPart(WithParts(fields, parts), last)
    decreases |parts|
  {
    if parts == [] {
      assert [last][1..] == [];
    } else {
      assert (parts + [last])[1..] == parts[1..] + [last];
      WithLastPart(WithPart(fields, parts[0]), parts[1..], last);
    }
  }

  lemma {:induction false} LastPartDecides(parts: seq<string>, k: Kind)
    ensures Read(WithParts(map[], parts), k) == LastSaid(parts, k)
  {
    if parts != [] {
      var init, last := parts[..|parts| - 1], parts[|parts| - 1];
      LastPartDecides(init, k);
      assert parts == init + [last];
      WithLastPart(map[], init, last);
      PartSays(WithParts(map[], init), last, k);
    }
  }

  predicate Negative(n: Option<int>) { n.Some? && n.value < 0 }

  lemma BuiltField(fields: Fields, k: Kind)
    ensures Build(fields).None? <==> exists kind: Kind :: Negative(Read(fields, kind))
    ensures Build(fields).Some? ==> Field(Build(fields).value, k) == Read(fields, k)
  {
    if kind: Kind :| kind in fields && fields[kind] < 0 { assert Negative(Read(fields, kind)); }
    if kind: Kind :| Negative(Read(fields, kind)) { assert kind in fields && fields[kind] < 0; }
  }

  /** Any text, as its parts between the commas: with white space around them, unknown names,
      repetitions and values that are no numbers.  The last part that says something of a field
      decides it, all else is ignored, and a negative decision refuses the text. */
  lemma ParsedSetting(parts: seq<string>, k: Kind)
    requires NoneContains(parts, ',') && Join(parts, ',') != ""
    ensures var r := FromParam(Some(Join(parts, ',')));
            && (r.None? <==> exists kind: Kind :: Negative(LastSaid(parts, kind)))
            && (r.Some? ==> Field(r.value, k) == LastSaid(parts, k))
  {
    if parts != [] { SplitJoin(parts, ','); }
    var fields := WithParts(map[], parts);
    BuiltField(fields, k);
    LastPartDecides(parts, k);
    if kind: Kind :| Negative(Read(fields, kind)) {
      LastPartDecides(parts, kind);
      assert Negative(LastSaid(parts, kind));
    }
    if kind: Kind :| Negative(LastSaid(parts, kind)) {
      LastPartDecides(parts, kind);
      assert Negative(Read(fields, kind));
    }
  }

  /** Without a text nothing is set. */
  lemma NothingParsed()
    ensures FromParam(None) == Some(Retention(None, None, None, None)) == FromParam(Some(""))
  {
  }
}
