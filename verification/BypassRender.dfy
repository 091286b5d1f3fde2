/**
 The rendering of bypass rules in internal/controlplane/http/bypass_render.go and the two
 readers of what it renders (extractPrevCIDRs there, extractCIDRsFromRuleSetJSON and
 buildNftWhitelistUpdateScript in internal/network/bypass_reload.go). JSON documents are
 taken in their decoded form.
 */
module BypassRender {
  import opened Wrappers
  import opened Text
  import opened Sorting

  /** The outcome of net.ParseIP, a foreign call and therefore a parameter. */
  datatype IpKind = NotIp | V4 | V6

  /** The rule_type column; other names are ignored by the renderer. */
  datatype RuleType = IpType | CidrType | DomainType | SuffixType | KeywordType | OtherType(name: string)

  datatype Rule = Rule(ruleType: RuleType, value: string, isRisky: bool)

  datatype Bucket = Cidr | Domain | Suffix | Keyword

  function TrimDot(s: string): string
  {
    if s != "" && s[0] == '.' then s[1..] else s
  }

  /** The bucket and the spelling under which a rule is collected; None if it is skipped. */
  function Entry(parseIp: string -> IpKind, r: Rule): Option<(Bucket, string)>
  {
    var v := TrimSpace(r.value);
    if v == "" then
      None
    else
      match r.ruleType
      case IpType =>
        (match parseIp(v)
         case V4 => Some((Cidr, v + "/32"))
         case V6 => Some((Cidr, v + "/128"))
         case NotIp => None)
      case CidrType => Some((Cidr, v))
      case DomainType => Some((Domain, v))
      case SuffixType => Some((Suffix, TrimDot(v)))
      case KeywordType => Some((Keyword, v))
      case OtherType(_) => None
  }

  /** Everything that the rules put into a bucket. */
  ghost function Collected(parseIp: string -> IpKind, rs: seq<Rule>, b: Bucket): set<string>
  {
    set i | 0 <= i < |rs| && Entry(parseIp, rs[i]).Some? && Entry(parseIp, rs[i]).value.0 == b ::
      Entry(parseIp, rs[i]).value.1
  }

  function Counted(parseIp: string -> IpKind, rs: seq<Rule>): nat
  {
    if rs == [] then 0 else Counted(parseIp, rs[..|rs| - 1]) + if Entry(parseIp, rs[|rs| - 1]).Some? then 1 else 0
  }

  function CountedRisky(parseIp: string -> IpKind, rs: seq<Rule>): nat
  {
    if rs == [] then 0
    else
      var last := rs[|rs| - 1];
      CountedRisky(parseIp, rs[..|rs| - 1]) + if Entry(parseIp, last).Some? && last.isRisky then 1 else 0
  }

  // ---------------------------------------------------------------------------
  // Documents

  datatype Json = Str(s: string) | Num(n: int) | Arr(items: seq<Json>) | Obj(fields: map<string, Json>)

  /** A decoded rule-set envelope. */
  datatype Envelope = Envelope(version: int, rules: seq<map<string, Json>>)

  const VERSION := 3

  function Strings(xs: seq<string>): Json
  {
    Arr(seq(|xs|, i requires 0 <= i < |xs| => Str(xs[i])))
  }

  /** One rule object per non-empty bucket. */
  function RuleFor(key: string, xs: seq<string>): seq<map<string, Json>>
  {
    if |xs| > 0 then [map[key := Strings(xs)]] else []
  }

  function CidrEnvelope(cidrs: seq<string>): Envelope
  {
    Envelope(VERSION, RuleFor("ip_cidr", cidrs))
  }

  function DomainEnvelope(domains: seq<string>, suffixes: seq<string>, keywords: seq<string>): Envelope
  {
    Envelope(VERSION, RuleFor("domain", domains) + RuleFor("domain_suffix", suffixes)
      + RuleFor("domain_keyword", keywords))
  }

  /** The rule object holds a non-empty list of strings under the key, and nothing else. */
  ghost predicate OneList(rule: map<string, Json>, key: string)
  {
    && rule.Keys == {key} && rule[key].Arr? && rule[key].items != []
    && forall v :: v in rule[key].items ==> v.Str?
  }

  /** Every rule object holds one list, under a key of its own out of `keys`. */
  ghost predicate OneListEach(doc: Envelope, keys: set<string>)
  {
    && (forall i :: 0 <= i < |doc.rules| ==> exists key :: key in keys && OneList(doc.rules[i], key))
    && (forall i, j :: 0 <= i < j < |doc.rules| ==> doc.rules[i].Keys != doc.rules[j].Keys)
  }

  // ---------------------------------------------------------------------------
  // Rendering

  datatype Output = Output(cidrs: Envelope, domains: Envelope, configHash: string, diff: seq<string>, total: nat,
                           risky: nat)

  /** The sets and counters that the closure addRule fills. */
  datatype Sums = Sums(cidrs: set<string>, domains: set<string>, suffixes: set<string>, keywords: set<string>,
                       total: nat, risky: nat)

  ghost function SumsOf(parseIp: string -> IpKind, rs: seq<Rule>): Sums
  {
    Sums(Collected(parseIp, rs, Cidr), Collected(parseIp, rs, Domain), Collected(parseIp, rs, Suffix),
         Collected(parseIp, rs, Keyword), Counted(parseIp, rs), CountedRisky(parseIp, rs))
  }

  /** One more rule. */
  ghost function Plus(s: Sums, parseIp: string -> IpKind, r: Rule): Sums
  {
    match Entry(parseIp, r)
    case None => s
    case Some((b, v)) => InBucket(s, b, v).(total := s.total + 1, risky := s.risky + if r.isRisky then 1 else 0)
  }

  ghost function InBucket(s: Sums, b: Bucket, v: string): Sums
  {
    match b
    case Cidr => s.(cidrs := s.cidrs + {v})
    case Domain => s.(domains := s.domains + {v})
    case Suffix => s.(suffixes := s.suffixes + {v})
    case Keyword => s.(keywords := s.keywords + {v})
  }

  class Collector {
    var cidrSet: set<string>
    var domainSet: set<string>
    var suffixSet: set<string>
    var keywordSet: set<string>
    var total: nat
    var risky: nat

    ghost function Value(): Sums
      reads this
    {
      Sums(cidrSet, domainSet, suffixSet, keywordSet, total, risky)
    }

    constructor ()
      ensures Value() == Sums({}, {}, {}, {}, 0, 0)
    {
      cidrSet, domainSet, suffixSet, keywordSet, total, risky := {}, {}, {}, {}, 0, 0;
    }

    method AddRule(parseIp: string -> IpKind, r: Rule)
      modifies this
      ensures Value() == Plus(old(Value()), parseIp, r)
    {
      var value := TrimSpace(r.value);
      if value == "" {
        return;
      }
      var known := true;
      match r.ruleType {
        case IpType =>
          match parseIp(value) {
            case V4 => cidrSet := cidrSet + {value + "/32"};
            case V6 => cidrSet := cidrSet + {value + "/128"};
            case NotIp => known := false;
          }
        case CidrType => cidrSet := cidrSet + {value};
        case DomainType => domainSet := domainSet + {value};
        case SuffixType => suffixSet := suffixSet + {TrimDot(value)};
        case KeywordType => keywordSet := keywordSet + {value};
        case OtherType(_) => known := false;
      }
      if known {
        total := total + 1;
        if r.isRisky {
          risky := risky + 1;
        }
      }
    }

    method AddAll(parseIp: string -> IpKind, more: seq<Rule>, ghost rs: seq<Rule>)
      requires Value() == SumsOf(parseIp, rs)
      modifies this
      ensures Value() == SumsOf(parseIp, rs + more)
    {
      AppendAll(rs, more);
      for i := 0 to |more|
        invariant Value() == SumsOf(parseIp, rs + more[..i])
      {
        SumsOneMore(parseIp, rs + more[..i], more[i]);
        AppendNext(rs, more, i);
        AddRule(parseIp, more[i]);
      }
    }
  }

  lemma SumsOneMore(parseIp: string -> IpKind, rs: seq<Rule>, r: Rule)
    ensures SumsOf(parseIp, rs + [r]) == Plus(SumsOf(parseIp, rs), parseIp, r)
  {
    assert (rs + [r])[..|rs|] == rs;
    CollectedOneMore(parseIp, rs, r, Cidr);
    CollectedOneMore(parseIp, rs, r, Domain);
    CollectedOneMore(parseIp, rs, r, Suffix);
    CollectedOneMore(parseIp, rs, r, Keyword);
  }

  /** Preset rules never count as risky. */
  function Safe(preset: seq<Rule>): seq<Rule>
  {
    seq(|preset|, i requires 0 <= i < |preset| => preset[i].(isRisky := false))
  }

  function PresetRules(presets: seq<seq<Rule>>): seq<Rule>
  {
    if presets == [] then [] else PresetRules(presets[..|presets| - 1]) + Safe(presets[|presets| - 1])
  }

  /** What the two loops of RenderBypassConfig visit, in order. */
  function AllRules(presets: seq<seq<Rule>>, rules: seq<Rule>): seq<Rule>
  {
    PresetRules(presets) + rules
  }

  lemma PresetOneMore(presets: seq<seq<Rule>>, i: nat)
    requires i < |presets|
    ensures PresetRules(presets[..i + 1]) == PresetRules(presets[..i]) + Safe(presets[i])
  {
    assert presets[..i + 1][..i] == presets[..i];
  }

  /** Both loops of RenderBypassConfig: preset rules first, then the host's own. */
  method CollectAll(parseIp: string -> IpKind, presets: seq<seq<Rule>>, rules: seq<Rule>) returns (c: Collector)
    ensures fresh(c) && c.Value() == SumsOf(parseIp, AllRules(presets, rules))
  {
    c := new Collector();
    for i := 0 to |presets|
      invariant fresh(c) && c.Value() == SumsOf(parseIp, PresetRules(presets[..i]))
    {
      PresetOneMore(presets, i);
      c.AddAll(parseIp, Safe(presets[i]), PresetRules(presets[..i]));
    }
    assert presets[..|presets|] == presets;
    c.AddAll(parseIp, rules, PresetRules(presets));
  }

  /** RenderBypassConfig. `hash` stands for SHA-256 over the two encoded documents. */
  method Render(parseIp: string -> IpKind, hash: (Envelope, Envelope) -> string, hostId: string,
                presets: seq<seq<Rule>>, rules: seq<Rule>, prev: Option<Envelope>) returns (out: Output)
    ensures Renders(parseIp, AllRules(presets, rules), out)
    ensures out.configHash == hash(out.cidrs, out.domains)
    ensures out.total == Counted(parseIp, AllRules(presets, rules))
    ensures out.risky == CountedRisky(parseIp, rules)
    ensures Publishes(parseIp, presets, rules, out)
    ensures ApplyDiff(Elements(PrevCidrs(prev)), out.diff) == Collected(parseIp, AllRules(presets, rules), Cidr)
  {
    var c := CollectAll(parseIp, presets, rules);
    var cidrs := SortedKeys(c.cidrSet);
    var domains := SortedKeys(c.domainSet);
    var suffixes := SortedKeys(c.suffixSet);
    var keywords := SortedKeys(c.keywordSet);
    var diff := RenderNftDiff(hostId, cidrs, prev);
    var cidrDoc, domainDoc := CidrEnvelope(cidrs), DomainEnvelope(domains, suffixes, keywords);
    out := Output(cidrDoc, domainDoc, hash(cidrDoc, domainDoc), diff, c.total, c.risky);
    assert RenderedFrom(parseIp, AllRules(presets, rules), out, cidrs, domains, suffixes, keywords);
    RiskyOfAll(parseIp, presets, rules);
    RenderingPublishes(parseIp, presets, rules, out, cidrs, domains, suffixes, keywords);
  }

  /** The documents are the envelopes of the four sorted buckets. */
  ghost predicate RenderedFrom(parseIp: string -> IpKind, rs: seq<Rule>, out: Output,
                               cidrs: seq<string>, domains: seq<string>, suffixes: seq<string>, keywords: seq<string>)
  {
    && Lists(cidrs, Collected(parseIp, rs, Cidr)) && Lists(domains, Collected(parseIp, rs, Domain))
    && Lists(suffixes, Collected(parseIp, rs, Suffix)) && Lists(keywords, Collected(parseIp, rs, Keyword))
    && out.cidrs == CidrEnvelope(cidrs) && out.domains == DomainEnvelope(domains, suffixes, keywords)
  }

  ghost predicate Renders(parseIp: string -> IpKind, rs: seq<Rule>, out: Output)
  {
    exists cidrs, domains, suffixes, keywords :: RenderedFrom(parseIp, rs, out, cidrs, domains, suffixes, keywords)
  }

  /** Some rule of rs is collected as e. */
  ghost predicate HasEntry(parseIp: string -> IpKind, rs: seq<Rule>, e: (Bucket, string))
  {
    exists i :: 0 <= i < |rs| && Entry(parseIp, rs[i]) == Some(e)
  }

  /** The documents depend only on which entries occur, not on their order or number. */
  lemma RenderingIsCanonical(parseIp: string -> IpKind, rs: seq<Rule>, rs': seq<Rule>, out: Output, out': Output)
    requires Renders(parseIp, rs, out) && Renders(parseIp, rs', out')
    requires forall e :: HasEntry(parseIp, rs, e) <==> HasEntry(parseIp, rs', e)
    ensures out.cidrs == out'.cidrs && out.domains == out'.domains
  {
    var cs, ds, ss, ks :| RenderedFrom(parseIp, rs, out, cs, ds, ss, ks);
    var cs', ds', ss', ks' :| RenderedFrom(parseIp, rs', out', cs', ds', ss', ks');
    forall b
      ensures Collected(parseIp, rs, b) == Collected(parseIp, rs', b)
    {
      SameEntries(parseIp, rs, rs', b);
    }
    ListingIsUnique(cs, cs', Collected(parseIp, rs, Cidr));
    ListingIsUnique(ds, ds', Collected(parseIp, rs, Domain));
    ListingIsUnique(ss, ss', Collected(parseIp, rs, Suffix));
    ListingIsUnique(ks, ks', Collected(parseIp, rs, Keyword));
  }

  lemma SameEntries(parseIp: string -> IpKind, rs: seq<Rule>, rs': seq<Rule>, b: Bucket)
    requires forall e :: HasEntry(parseIp, rs, e) <==> HasEntry(parseIp, rs', e)
    ensures Collected(parseIp, rs, b) == Collected(parseIp, rs', b)
  {
    forall v
      ensures v in Collected(parseIp, rs, b) <==> v in Collected(parseIp, rs', b)
    {
      CollectedMeans(parseIp, rs, b, v);
      CollectedMeans(parseIp, rs', b, v);
    }
  }

  /** r is a rule of the host or of one of its presets. */
  predicate Given(presets: seq<seq<Rule>>, rules: seq<Rule>, r: Rule)
  {
    r in rules || exists i :: 0 <= i < |presets| && r in presets[i]
  }

  lemma HasEntryConcat(parseIp: string -> IpKind, a: seq<Rule>, b: seq<Rule>, e: (Bucket, string))
    ensures HasEntry(parseIp, a + b, e) <==> HasEntry(parseIp, a, e) || HasEntry(parseIp, b, e)
  {
    forall i | 0 <= i < |a| && Entry(parseIp, a[i]) == Some(e)
      ensures HasEntry(parseIp, a + b, e)
    {
      assert (a + b)[i] == a[i];
    }
    forall i | 0 <= i < |b| && Entry(parseIp, b[i]) == Some(e)
      ensures HasEntry(parseIp, a + b, e)
    {
      assert (a + b)[|a| + i] == b[i];
    }
  }

  /** Clearing the risk flag changes no entry. */
  lemma EntryIgnoresRisk(parseIp: string -> IpKind, r: Rule)
    ensures Entry(parseIp, r.(isRisky := false)) == Entry(parseIp, r)
  {
  }

  lemma HasEntrySafe(parseIp: string -> IpKind, preset: seq<Rule>, e: (Bucket, string))
    ensures HasEntry(parseIp, Safe(preset), e) <==> HasEntry(parseIp, preset, e)
  {
    forall i | 0 <= i < |preset|
      ensures Entry(parseIp, Safe(preset)[i]) == Entry(parseIp, preset[i])
    {
      EntryIgnoresRisk(parseIp, preset[i]);
    }
    if i :| 0 <= i < |preset| && Entry(parseIp, preset[i]) == Some(e) {
      assert Entry(parseIp, Safe(preset)[i]) == Some(e);
    }
    if i :| 0 <= i < |preset| && Entry(parseIp, Safe(preset)[i]) == Some(e) {
      assert Entry(parseIp, preset[i]) == Some(e);
    }
  }

  lemma LastPreset(parseIp: string -> IpKind, presets: seq<seq<Rule>>, e: (Bucket, string))
    requires presets != []
    ensures HasEntry(parseIp, PresetRules(presets), e) <==>
            HasEntry(parseIp, PresetRules(presets[..|presets| - 1]), e) || HasEntry(parseIp, presets[|presets| - 1], e)
  {
    var n := |presets| - 1;
    HasEntryConcat(parseIp, PresetRules(presets[..n]), Safe(presets[n]), e);
    HasEntrySafe(parseIp, presets[n], e);
  }

  lemma {:induction false} PresetIsCollected(parseIp: string -> IpKind, presets: seq<seq<Rule>>, i: nat,
                                             e: (Bucket, string))
    requires i < |presets| && HasEntry(parseIp, presets[i], e)
    ensures HasEntry(parseIp, PresetRules(presets), e)
    decreases |presets|
  {
    LastPreset(parseIp, presets, e);
    if i < |presets| - 1 {
      PresetIsCollected(parseIp, presets[..|presets| - 1], i, e);
    }
  }

  lemma {:induction false} CollectedIsPreset(parseIp: string -> IpKind, presets: seq<seq<Rule>>, e: (Bucket, string))
    returns (i: nat)
    requires HasEntry(parseIp, PresetRules(presets), e)
    ensures i < |presets| && HasEntry(parseIp, presets[i], e)
    decreases |presets|
  {
    LastPreset(parseIp, presets, e);
    i := |presets| - 1;
    if !HasEntry(parseIp, presets[i], e) {
      i := CollectedIsPreset(parseIp, presets[..i], e);
    }
  }

  lemma GivenIsCollected(parseIp: string -> IpKind, presets: seq<seq<Rule>>, rules: seq<Rule>, r: Rule,
                         e: (Bucket, string))
    requires Given(presets, rules, r) && Entry(parseIp, r) == Some(e)
    ensures HasEntry(parseIp, AllRules(presets, rules), e)
  {
    HasEntryConcat(parseIp, PresetRules(presets), rules, e);
    if r !in rules {
      var i :| 0 <= i < |presets| && r in presets[i];
      PresetIsCollected(parseIp, presets, i, e);
    }
  }

  lemma EntryIsGiven(parseIp: string -> IpKind, presets: seq<seq<Rule>>, rules: seq<Rule>, e: (Bucket, string))
    returns (r: Rule)
    requires HasEntry(parseIp, AllRules(presets, rules), e)
    ensures Given(presets, rules, r) && Entry(parseIp, r) == Some(e)
  {
    HasEntryConcat(parseIp, PresetRules(presets), rules, e);
    if HasEntry(parseIp, rules, e) {
      var k :| 0 <= k < |rules| && Entry(parseIp, rules[k]) == Some(e);
      r := rules[k];
    } else {
      var i := CollectedIsPreset(parseIp, presets, e);
      var k :| 0 <= k < |presets[i]| && Entry(parseIp, presets[i][k]) == Some(e);
      r := presets[i][k];
    }
  }

  lemma CollectedIsGiven(parseIp: string -> IpKind, presets: seq<seq<Rule>>, rules: seq<Rule>, b: Bucket, v: string)
    ensures v in Collected(parseIp, AllRules(presets, rules), b) <==>
              exists r :: Given(presets, rules, r) && Entry(parseIp, r) == Some((b, v))
  {
    CollectedMeans(parseIp, AllRules(presets, rules), b, v);
    if HasEntry(parseIp, AllRules(presets, rules), (b, v)) {
      var r := EntryIsGiven(parseIp, presets, rules, (b, v));
    }
    if r :| Given(presets, rules, r) && Entry(parseIp, r) == Some((b, v)) {
      GivenIsCollected(parseIp, presets, rules, r, (b, v));
    }
  }

  // ---------------------------------------------------------------------------
  // What the documents say

  /** A rule asks for the address block v: as it stands, or as a single address. */
  ghost predicate AsksBlock(parseIp: string -> IpKind, r: Rule, v: string)
  {
    var value := TrimSpace(r.value);
    && value != ""
    && ((r.ruleType.CidrType? && v == value)
        || (r.ruleType.IpType? && parseIp(value).V4? && v == value + "/32")
        || (r.ruleType.IpType? && parseIp(value).V6? && v == value + "/128"))
  }

  ghost predicate AsksDomain(r: Rule, v: string)
  {
    r.ruleType.DomainType? && v != "" && TrimSpace(r.value) == v
  }

  /** One leading dot is dropped. */
  ghost predicate AsksSuffix(r: Rule, v: string)
  {
    r.ruleType.SuffixType? &&
    (TrimSpace(r.value) == "." + v || (TrimSpace(r.value) == v && v != "" && v[0] != '.'))
  }

  ghost predicate AsksKeyword(r: Rule, v: string)
  {
    r.ruleType.KeywordType? && v != "" && TrimSpace(r.value) == v
  }

  ghost predicate ListsBlocks(parseIp: string -> IpKind, presets: seq<seq<Rule>>, rules: seq<Rule>, xs: seq<string>)
  {
    Ascending(xs) && forall v :: v in xs <==> exists r :: Given(presets, rules, r) && AsksBlock(parseIp, r, v)
  }

  ghost predicate ListsDomains(presets: seq<seq<Rule>>, rules: seq<Rule>, xs: seq<string>)
  {
    Ascending(xs) && forall v :: v in xs <==> exists r :: Given(presets, rules, r) && AsksDomain(r, v)
  }

  ghost predicate ListsSuffixes(presets: seq<seq<Rule>>, rules: seq<Rule>, xs: seq<string>)
  {
    Ascending(xs) && forall v :: v in xs <==> exists r :: Given(presets, rules, r) && AsksSuffix(r, v)
  }

  ghost predicate ListsKeywords(presets: seq<seq<Rule>>, rules: seq<Rule>, xs: seq<string>)
  {
    Ascending(xs) && forall v :: v in xs <==> exists r :: Given(presets, rules, r) && AsksKeyword(r, v)
  }

  /** The two documents of version 3: each key lists in ascending order, once each, exactly what some
      rule of the host or of a preset asks for. */
  ghost predicate Publishes(parseIp: string -> IpKind, presets: seq<seq<Rule>>, rules: seq<Rule>, out: Output)
  {
    && out.cidrs.version == 3 && OneListEach(out.cidrs, {"ip_cidr"})
    && out.domains.version == 3 && OneListEach(out.domains, {"domain", "domain_suffix", "domain_keyword"})
    && ListsBlocks(parseIp, presets, rules, LenientRules(out.cidrs.rules, "ip_cidr"))
    && ListsDomains(presets, rules, LenientRules(out.domains.rules, "domain"))
    && ListsSuffixes(presets, rules, LenientRules(out.domains.rules, "domain_suffix"))
    && ListsKeywords(presets, rules, LenientRules(out.domains.rules, "domain_keyword"))
  }

  lemma EntryAsks(parseIp: string -> IpKind, r: Rule, v: string)
    ensures Entry(parseIp, r) == Some((Cidr, v)) <==> AsksBlock(parseIp, r, v)
    ensures Entry(parseIp, r) == Some((Domain, v)) <==> AsksDomain(r, v)
    ensures Entry(parseIp, r) == Some((Suffix, v)) <==> AsksSuffix(r, v)
    ensures Entry(parseIp, r) == Some((Keyword, v)) <==> AsksKeyword(r, v)
  {
    assert ("." + v)[1..] == v;
    var value := TrimSpace(r.value);
    assert value != "" && value[0] == '.' ==> value == "." + value[1..];
  }

  lemma CollectedAsks(parseIp: string -> IpKind, presets: seq<seq<Rule>>, rules: seq<Rule>, v: string)
    ensures var all := AllRules(presets, rules);
            && (v in Collected(parseIp, all, Cidr) <==>
                  exists r :: Given(presets, rules, r) && AsksBlock(parseIp, r, v))
            && (v in Collected(parseIp, all, Domain) <==> exists r :: Given(presets, rules, r) && AsksDomain(r, v))
            && (v in Collected(parseIp, all, Suffix) <==> exists r :: Given(presets, rules, r) && AsksSuffix(r, v))
            && (v in Collected(parseIp, all, Keyword) <==> exists r :: Given(presets, rules, r) && AsksKeyword(r, v))
  {
    CollectedIsGiven(parseIp, presets, rules, Cidr, v);
    CollectedIsGiven(parseIp, presets, rules, Domain, v);
    CollectedIsGiven(parseIp, presets, rules, Suffix, v);
    CollectedIsGiven(parseIp, presets, rules, Keyword, v);
    forall r
      ensures Entry(parseIp, r) == Some((Cidr, v)) <==> AsksBlock(parseIp, r, v)
      ensures Entry(parseIp, r) == Some((Domain, v)) <==> AsksDomain(r, v)
      ensures Entry(parseIp, r) == Some((Suffix, v)) <==> AsksSuffix(r, v)
      ensures Entry(parseIp, r) == Some((Keyword, v)) <==> AsksKeyword(r, v)
    {
      EntryAsks(parseIp, r, v);
    }
  }

  lemma BucketsAreAsked(parseIp: string -> IpKind, presets: seq<seq<Rule>>, rules: seq<Rule>, out: Output,
                        cidrs: seq<string>, domains: seq<string>, suffixes: seq<string>, keywords: seq<string>)
    requires RenderedFrom(parseIp, AllRules(presets, rules), out, cidrs, domains, suffixes, keywords)
    ensures ListsBlocks(parseIp, presets, rules, cidrs) && ListsDomains(presets, rules, domains)
    ensures ListsSuffixes(presets, rules, suffixes) && ListsKeywords(presets, rules, keywords)
  {
    var all := AllRules(presets, rules);
    forall v
      ensures v in cidrs <==> exists r :: Given(presets, rules, r) && AsksBlock(parseIp, r, v)
      ensures v in domains <==> exists r :: Given(presets, rules, r) && AsksDomain(r, v)
      ensures v in suffixes <==> exists r :: Given(presets, rules, r) && AsksSuffix(r, v)
      ensures v in keywords <==> exists r :: Given(presets, rules, r) && AsksKeyword(r, v)
    {
      CollectedAsks(parseIp, presets, rules, v);
      assert v in Elements(cidrs) <==> v in cidrs;
      assert v in Elements(domains) <==> v in domains;
      assert v in Elements(suffixes) <==> v in suffixes;
      assert v in Elements(keywords) <==> v in keywords;
    }
  }

  lemma RenderingPublishes(parseIp: string -> IpKind, presets: seq<seq<Rule>>, rules: seq<Rule>, out: Output,
                           cidrs: seq<string>, domains: seq<string>, suffixes: seq<string>, keywords: seq<string>)
    requires RenderedFrom(parseIp, AllRules(presets, rules), out, cidrs, domains, suffixes, keywords)
    ensures Publishes(parseIp, presets, rules, out)
  {
    ReadersInvertRendering(cidrs);
    DomainDocument(domains, suffixes, keywords);
    CidrDocumentShape(cidrs);
    DomainDocumentShape(domains, suffixes, keywords);
    BucketsAreAsked(parseIp, presets, rules, out, cidrs, domains, suffixes, keywords);
  }

  // ---------------------------------------------------------------------------
  // Canonical form

  lemma RiskySnoc(parseIp: string -> IpKind, a: seq<Rule>, r: Rule)
    ensures CountedRisky(parseIp, a + [r]) ==
            CountedRisky(parseIp, a) + if Entry(parseIp, r).Some? && r.isRisky then 1 else 0
  {
    assert (a + [r])[..|a|] == a;
  }

  lemma RiskyStep(parseIp: string -> IpKind, a: seq<Rule>, b: seq<Rule>, r: Rule)
    requires CountedRisky(parseIp, a + b) == CountedRisky(parseIp, b)
    ensures CountedRisky(parseIp, a + (b + [r])) == CountedRisky(parseIp, b + [r])
  {
    RiskySnoc(parseIp, a + b, r);
    RiskySnoc(parseIp, b, r);
    assert a + (b + [r]) == (a + b) + [r];
  }

  lemma {:induction false} RiskyAfter(parseIp: string -> IpKind, a: seq<Rule>, b: seq<Rule>)
    requires CountedRisky(parseIp, a) == 0
    ensures CountedRisky(parseIp, a + b) == CountedRisky(parseIp, b)
    decreases |b|
  {
    if b == [] {
      assert a + b == a;
    } else {
      var init, last := b[..|b| - 1], b[|b| - 1];
      RiskyAfter(parseIp, a, init);
      RiskyStep(parseIp, a, init, last);
      assert b == init + [last];
    }
  }

  lemma {:induction false} NoneRisky(parseIp: string -> IpKind, rs: seq<Rule>)
    requires forall i :: 0 <= i < |rs| ==> !rs[i].isRisky
    ensures CountedRisky(parseIp, rs) == 0
  {
    if rs != [] {
      NoneRisky(parseIp, rs[..|rs| - 1]);
    }
  }

  lemma {:induction false} PresetsAreSafe(presets: seq<seq<Rule>>)
    ensures forall i :: 0 <= i < |PresetRules(presets)| ==> !PresetRules(presets)[i].isRisky
  {
    if presets != [] {
      PresetsAreSafe(presets[..|presets| - 1]);
    }
  }

  /** Only the host's own rules count as risky. */
  lemma RiskyOfAll(parseIp: string -> IpKind, presets: seq<seq<Rule>>, rules: seq<Rule>)
    ensures CountedRisky(parseIp, AllRules(presets, rules)) == CountedRisky(parseIp, rules)
  {
    PresetsAreSafe(presets);
    NoneRisky(parseIp, PresetRules(presets));
    RiskyAfter(parseIp, PresetRules(presets), rules);
  }

  /** Main result: two renderings of the same presets and rules, in any order, with any repetitions,
      have the same documents and therefore the same hash. */
  lemma OrderAndRepetitionDoNotMatter(parseIp: string -> IpKind, hash: (Envelope, Envelope) -> string,
                                      presets: seq<seq<Rule>>, rules: seq<Rule>, out: Output,
                                      presets': seq<seq<Rule>>, rules': seq<Rule>, out': Output)
    requires forall r :: Given(presets, rules, r) <==> Given(presets', rules', r)
    requires Renders(parseIp, AllRules(presets, rules), out) && Renders(parseIp, AllRules(presets', rules'), out')
    requires out.configHash == hash(out.cidrs, out.domains) && out'.configHash == hash(out'.cidrs, out'.domains)
    ensures out.cidrs == out'.cidrs && out.domains == out'.domains && out.configHash == out'.configHash
  {
    forall e
      ensures HasEntry(parseIp, AllRules(presets, rules), e) <==> HasEntry(parseIp, AllRules(presets', rules'), e)
    {
      if HasEntry(parseIp, AllRules(presets, rules), e) {
        var r := EntryIsGiven(parseIp, presets, rules, e);
        GivenIsCollected(parseIp, presets', rules', r, e);
      }
      if HasEntry(parseIp, AllRules(presets', rules'), e) {
        var r := EntryIsGiven(parseIp, presets', rules', e);
        GivenIsCollected(parseIp, presets, rules, r, e);
      }
    }
    RenderingIsCanonical(parseIp, AllRules(presets, rules), AllRules(presets', rules'), out, out');
  }

  lemma CollectedMeans(parseIp: string -> IpKind, rs: seq<Rule>, b: Bucket, v: string)
    ensures v in Collected(parseIp, rs, b) <==> HasEntry(parseIp, rs, (b, v))
  {
  }

  lemma CollectedOneMore(parseIp: string -> IpKind, rs: seq<Rule>, r: Rule, b: Bucket)
    ensures var e, was := Entry(parseIp, r), Collected(parseIp, rs, b);
            Collected(parseIp, rs + [r], b) == if e.Some? && e.value.0 == b then was + {e.value.1} else was
  {
    var all := rs + [r];
    forall v
      ensures v in Collected(parseIp, all, b) <==> v in Collected(parseIp, rs, b) || Entry(parseIp, r) == Some((b, v))
    {
      if v in Collected(parseIp, rs, b) {
        var i :| 0 <= i < |rs| && Entry(parseIp, rs[i]) == Some((b, v));
        assert all[i] == rs[i];
      }
      if Entry(parseIp, r) == Some((b, v)) {
        assert all[|rs|] == r;
      }
    }
  }

  // ---------------------------------------------------------------------------
  // The readers

  /** The strings of one `ip_cidr` value as extractPrevCIDRs takes them: other values are skipped. */
  function LenientItems(items: seq<Json>): seq<string>
  {
    if items == [] then []
    else LenientItems(items[..|items| - 1]) + if items[|items| - 1].Str? then [items[|items| - 1].s] else []
  }

  function LenientRule(rule: map<string, Json>, key: string): seq<string>
  {
    if key in rule && rule[key].Arr? then LenientItems(rule[key].items) else []
  }

  /** The strings that the rules of a document list under a key. */
  function LenientRules(rules: seq<map<string, Json>>, key: string): seq<string>
  {
    if rules == [] then [] else LenientRules(rules[..|rules| - 1], key) + LenientRule(rules[|rules| - 1], key)
  }

  /** extractPrevCIDRs; None stands for a missing, empty or undecodable snapshot. */
  function PrevCidrs(prev: Option<Envelope>): seq<string>
  {
    if prev.None? then [] else LenientRules(prev.value.rules, "ip_cidr")
  }

  lemma {:induction false} LenientItemsMeaning(items: seq<Json>, v: string)
    ensures v in LenientItems(items) <==> Str(v) in items
  {
    if items != [] {
      LenientItemsMeaning(items[..|items| - 1], v);
      assert items == items[..|items| - 1] + [items[|items| - 1]];
    }
  }

  /** The string v stands in the list that the rule holds under the key. */
  predicate ListedIn(rule: map<string, Json>, key: string, v: string)
  {
    key in rule && rule[key].Arr? && Str(v) in rule[key].items
  }

  lemma LenientRuleMeaning(rule: map<string, Json>, key: string, v: string)
    ensures v in LenientRule(rule, key) <==> ListedIn(rule, key, v)
  {
    if key in rule && rule[key].Arr? {
      LenientItemsMeaning(rule[key].items, v);
    }
  }

  lemma LenientRulesStep(init: seq<map<string, Json>>, last: map<string, Json>, key: string, v: string)
    requires v in LenientRules(init, key) <==> exists i :: 0 <= i < |init| && ListedIn(init[i], key, v)
    ensures v in LenientRules(init + [last], key) <==>
              exists i :: 0 <= i < |init + [last]| && ListedIn((init + [last])[i], key, v)
  {
    var rules := init + [last];
    LenientRuleMeaning(last, key, v);
    assert rules[..|init|] == init && rules[|init|] == last;
    assert forall i :: 0 <= i < |init| ==> rules[i] == init[i];
  }

  lemma {:induction false} LenientRulesMeaning(rules: seq<map<string, Json>>, key: string, v: string)
    ensures v in LenientRules(rules, key) <==> exists i :: 0 <= i < |rules| && ListedIn(rules[i], key, v)
    decreases |rules|
  {
    if rules != [] {
      var init, last := rules[..|rules| - 1], rules[|rules| - 1];
      LenientRulesMeaning(init, key, v);
      LenientRulesStep(init, last, key, v);
      assert rules == init + [last];
    }
  }

  /** The lenient reader takes every string listed under "ip_cidr" and skips what is of another type. */
  lemma PrevCidrsMeaning(prev: Option<Envelope>, v: string)
    ensures v in PrevCidrs(prev) <==>
              prev.Some? && exists i :: 0 <= i < |prev.value.rules| && ListedIn(prev.value.rules[i], "ip_cidr", v)
  {
    if prev.Some? {
      LenientRulesMeaning(prev.value.rules, "ip_cidr", v);
    }
  }

  predicate WellTyped(rule: map<string, Json>)
  {
    "ip_cidr" in rule ==>
      rule["ip_cidr"].Arr? && forall k :: 0 <= k < |rule["ip_cidr"].items| ==> rule["ip_cidr"].items[k].Str?
  }

  method ReadStrings(items: seq<Json>) returns (r: Option<seq<string>>)
    ensures r.Some? <==> forall k :: 0 <= k < |items| ==> items[k].Str?
    ensures r.Some? ==> r.value == LenientItems(items)
  {
    var xs := [];
    for i := 0 to |items|
      invariant xs == LenientItems(items[..i])
      invariant forall k :: 0 <= k < i ==> items[k].Str?
    {
      assert items[..i + 1][..i] == items[..i];
      if !items[i].Str? {
        return None;
      }
      xs := xs + [items[i].s];
    }
    assert items[..|items|] == items;
    r := Some(xs);
  }

  /** The `ip_cidr` values of one rule, or None if they are of the wrong type. */
  method ReadRule(rule: map<string, Json>) returns (r: Option<seq<string>>)
    ensures r.Some? <==> WellTyped(rule)
    ensures r.Some? ==> r.value == LenientRule(rule, "ip_cidr")
  {
    if "ip_cidr" !in rule {
      return Some([]);
    }
    var raw := rule["ip_cidr"];
    if !raw.Arr? {
      return None;
    }
    r := ReadStrings(raw.items);
  }

  /** extractCIDRsFromRuleSetJSON: an unknown version or a value of the wrong type is an error. */
  method ExtractCidrs(env: Envelope) returns (out: Option<seq<string>>)
    ensures out.Some? <==> env.version == 3 && forall i :: 0 <= i < |env.rules| ==> WellTyped(env.rules[i])
    ensures out.Some? ==> out.value == PrevCidrs(Some(env))
  {
    if env.version != VERSION {
      return None;
    }
    var cidrs := [];
    for i := 0 to |env.rules|
      invariant cidrs == LenientRules(env.rules[..i], "ip_cidr")
      invariant forall k :: 0 <= k < i ==> WellTyped(env.rules[k])
    {
      assert env.rules[..i + 1][..i] == env.rules[..i];
      var items := ReadRule(env.rules[i]);
      if items.None? {
        return None;
      }
      cidrs := cidrs + items.value;
    }
    assert env.rules[..|env.rules|] == env.rules;
    out := Some(cidrs);
  }

  lemma {:induction false} LenientItemsOfStrings(xs: seq<string>)
    ensures LenientItems(Strings(xs).items) == xs
  {
    if xs != [] {
      var n := |xs| - 1;
      LenientItemsOfStrings(xs[..n]);
      assert Strings(xs).items[..n] == Strings(xs[..n]).items;
    }
  }

  /** What one more rule object adds to the reading. */
  lemma UnderMore(a: seq<map<string, Json>>, name: string, xs: seq<string>, key: string)
    ensures LenientRules(a + RuleFor(name, xs), key) == LenientRules(a, key) + if key == name then xs else []
  {
    if |xs| > 0 {
      var r := RuleFor(name, xs);
      LenientItemsOfStrings(xs);
      assert (a + r)[..|a|] == a && (a + r)[|a|] == r[0];
    } else {
      assert a + [] == a;
    }
  }

  /** Both readers return from a rendered document exactly the sorted list that went in. */
  lemma ReadersInvertRendering(cidrs: seq<string>)
    ensures PrevCidrs(Some(CidrEnvelope(cidrs))) == cidrs
    ensures CidrEnvelope(cidrs).version == 3
    ensures forall i :: 0 <= i < |CidrEnvelope(cidrs).rules| ==> WellTyped(CidrEnvelope(cidrs).rules[i])
  {
    UnderMore([], "ip_cidr", cidrs, "ip_cidr");
    assert [] + RuleFor("ip_cidr", cidrs) == RuleFor("ip_cidr", cidrs);
  }

  lemma OneListOfRule(name: string, xs: seq<string>)
    ensures var r := RuleFor(name, xs); |r| <= 1 && forall i :: 0 <= i < |r| ==> OneList(r[i], name)
  {
  }

  lemma UnderThree(a: string, xs: seq<string>, b: string, ys: seq<string>, c: string, zs: seq<string>, key: string)
    requires a != b && b != c && a != c
    ensures LenientRules(RuleFor(a, xs) + RuleFor(b, ys) + RuleFor(c, zs), key) ==
            if key == a then xs else if key == b then ys else if key == c then zs else []
  {
    UnderMore([], a, xs, key);
    assert [] + RuleFor(a, xs) == RuleFor(a, xs);
    UnderMore(RuleFor(a, xs), b, ys, key);
    UnderMore(RuleFor(a, xs) + RuleFor(b, ys), c, zs, key);
  }

  /** The domain document read by its keys. */
  lemma DomainDocument(domains: seq<string>, suffixes: seq<string>, keywords: seq<string>)
    ensures var rules := DomainEnvelope(domains, suffixes, keywords).rules;
            && LenientRules(rules, "domain") == domains
            && LenientRules(rules, "domain_suffix") == suffixes
            && LenientRules(rules, "domain_keyword") == keywords
  {
    var a, b, c := "domain", "domain_suffix", "domain_keyword";
    assert |a| == 6 && |b| == 13 && |c| == 14;
    UnderThree(a, domains, b, suffixes, c, keywords, a);
    UnderThree(a, domains, b, suffixes, c, keywords, b);
    UnderThree(a, domains, b, suffixes, c, keywords, c);
  }

  lemma DomainDocumentShape(domains: seq<string>, suffixes: seq<string>, keywords: seq<string>)
    ensures OneListEach(DomainEnvelope(domains, suffixes, keywords), {"domain", "domain_suffix", "domain_keyword"})
  {
    OneListOfRule("domain", domains);
    OneListOfRule("domain_suffix", suffixes);
    OneListOfRule("domain_keyword", keywords);
  }

  lemma CidrDocumentShape(cidrs: seq<string>)
    ensures OneListEach(CidrEnvelope(cidrs), {"ip_cidr"})
  {
    OneListOfRule("ip_cidr", cidrs);
  }

  // ---------------------------------------------------------------------------
  // The diff

  /** What the preview lines say about a set: `- x` removes x and `+ x` adds it. */
  function ApplyDiff(was: set<string>, lines: seq<string>): set<string>
  {
    if lines == [] then
      was
    else
      ApplyLine(ApplyDiff(was, lines[..|lines| - 1]), lines[|lines| - 1])
  }

  function ApplyLine(was: set<string>, line: string): set<string>
  {
    if "- " <= line then was - {line[2..]} else if "+ " <= line then was + {line[2..]} else was
  }

  function Prefixed(sign: string, xs: seq<string>): seq<string>
  {
    seq(|xs|, i requires 0 <= i < |xs| => sign + xs[i])
  }

  const HEADER := "# @whitelist_v4 set diff (host="

  /** renderNftDiff: the removals and then the additions, each sorted. */
  method RenderNftDiff(hostId: string, currentCidrs: seq<string>, prev: Option<Envelope>) returns (lines: seq<string>)
    ensures ApplyDiff(Elements(PrevCidrs(prev)), lines) == Elements(currentCidrs)
    ensures exists deletions, additions ::
              && lines == ["# @whitelist_v4 set diff (host=" + hostId + ")"] + Prefixed("- ", deletions)
                          + Prefixed("+ ", additions)
              && Lists(deletions, Elements(PrevCidrs(prev)) - Elements(currentCidrs))
              && Lists(additions, Elements(currentCidrs) - Elements(PrevCidrs(prev)))
  {
    var prevCidrs := PrevCidrs(prev);
    var prevSet, currSet := set x | x in prevCidrs, set x | x in currentCidrs;
    var deletions := SortedKeys(prevSet - currSet);
    var additions := SortedKeys(currSet - prevSet);
    var header := HEADER + hostId + ")";
    lines := [header] + Prefixed("- ", deletions) + Prefixed("+ ", additions);
    ApplyHeader(prevSet, hostId);
    ApplyConcat(prevSet, [header], Prefixed("- ", deletions));
    ApplyRemovals(prevSet, deletions);
    ApplyConcat(prevSet, [header] + Prefixed("- ", deletions), Prefixed("+ ", additions));
    ApplyAdditions(prevSet - (prevSet - currSet), additions);
  }

  lemma ApplyHeader(was: set<string>, hostId: string)
    ensures ApplyDiff(was, [HEADER + hostId + ")"]) == was
  {
    var header := HEADER + hostId + ")";
    assert header[0] == HEADER[0] == '#';
    var lines := [header];
    assert lines[..0] == [];
  }

  lemma {:induction false} ApplyConcat(was: set<string>, a: seq<string>, b: seq<string>)
    ensures ApplyDiff(was, a + b) == ApplyDiff(ApplyDiff(was, a), b)
    decreases |b|
  {
    if b == [] {
      assert a + b == a;
    } else {
      assert (a + b)[..|a + b| - 1] == a + b[..|b| - 1];
      ApplyConcat(was, a, b[..|b| - 1]);
    }
  }

  lemma {:induction false} ApplyRemovals(was: set<string>, xs: seq<string>)
    ensures ApplyDiff(was, Prefixed("- ", xs)) == was - Elements(xs)
  {
    if xs != [] {
      var n := |xs| - 1;
      ApplyRemovals(was, xs[..n]);
      assert Prefixed("- ", xs)[..n] == Prefixed("- ", xs[..n]);
      SignedLine("- ", xs[n]);
      assert xs == xs[..n] + [xs[n]];
    }
  }

  lemma {:induction false} ApplyAdditions(was: set<string>, xs: seq<string>)
    ensures ApplyDiff(was, Prefixed("+ ", xs)) == was + Elements(xs)
  {
    if xs != [] {
      var n := |xs| - 1;
      ApplyAdditions(was, xs[..n]);
      assert Prefixed("+ ", xs)[..n] == Prefixed("+ ", xs[..n]);
      SignedLine("+ ", xs[n]);
      assert xs == xs[..n] + [xs[n]];
    }
  }

  lemma SignedLine(sign: string, x: string)
    requires sign == "- " || sign == "+ "
    ensures forall was :: ApplyLine(was, sign + x) == if sign == "- " then was - {x} else was + {x}
  {
    var line := sign + x;
    assert line[..2] == sign && line[2..] == x;
    assert line[0] == sign[0];
  }

  // ---------------------------------------------------------------------------
  // The nft script

  /** The elements that reach the IPv4 set: trimmed, not empty, without a colon. */
  ghost function V4Elements(cidrs: seq<string>): set<string>
  {
    set i | 0 <= i < |cidrs| && TrimSpace(cidrs[i]) != "" && ':' !in TrimSpace(cidrs[i]) :: TrimSpace(cidrs[i])
  }

  lemma V4OneMore(cidrs: seq<string>, i: nat)
    requires i < |cidrs|
    ensures var c := TrimSpace(cidrs[i]);
            V4Elements(cidrs[..i + 1]) == V4Elements(cidrs[..i]) + if c == "" || ':' in c then {} else {c}
  {
    var some, more := cidrs[..i], cidrs[..i + 1];
    forall v
      ensures v in V4Elements(more) <==> v in V4Elements(some) || (v == TrimSpace(cidrs[i]) && v != "" && ':' !in v)
    {
      if v in V4Elements(some) {
        var k :| 0 <= k < |some| && TrimSpace(some[k]) == v && v != "" && ':' !in v;
        assert more[k] == some[k];
      }
      if v == TrimSpace(cidrs[i]) && v != "" && ':' !in v {
        assert more[i] == cidrs[i];
      }
    }
  }

  /** The loop of buildNftWhitelistUpdateScript and its sort: the one sorted list of the IPv4
      elements, whatever the order and repetitions. */
  method ScriptElements(cidrs: seq<string>) returns (keys: seq<string>)
    ensures Lists(keys, V4Elements(cidrs))
  {
    var uniq: set<string> := {};
    for i := 0 to |cidrs|
      invariant uniq == V4Elements(cidrs[..i])
    {
      var c := TrimSpace(cidrs[i]);
      V4OneMore(cidrs, i);
      if c == "" || ':' in c || c in uniq {
        continue;
      }
      uniq := uniq + {c};
    }
    assert cidrs[..|cidrs|] == cidrs;
    keys := SortedKeys(uniq);
  }

  /** The two commands on the set @whitelist_v4. */
  datatype NftCommand = FlushSet | AddElements(elements: seq<string>)

  function Execute(was: set<string>, command: NftCommand): set<string>
  {
    match command
    case FlushSet => {}
    case AddElements(elements) => was + set x | x in elements
  }

  function Perform(was: set<string>, script: seq<NftCommand>): set<string>
  {
    if script == [] then was else Execute(Perform(was, script[..|script| - 1]), script[|script| - 1])
  }

  /** buildNftWhitelistUpdateScript: whatever the set held, the transaction leaves exactly the IPv4
      elements in it, and never adds an empty list, which nft would reject. */
  method UpdateScript(cidrs: seq<string>) returns (script: seq<NftCommand>)
    ensures forall was :: Perform(was, script) == V4Elements(cidrs)
    ensures forall k :: 0 <= k < |script| && script[k].AddElements? ==>
              script[k].elements != [] && Ascending(script[k].elements)
  {
    var keys := ScriptElements(cidrs);
    script := [FlushSet];
    if |keys| > 0 {
      script := script + [AddElements(keys)];
    }
    forall was
      ensures Perform(was, script) == V4Elements(cidrs)
    {
      assert Perform(was, []) == was && [FlushSet][..0] == [];
      assert Perform(was, [FlushSet]) == {};
      assert |keys| > 0 ==> script[..1] == [FlushSet];
      assert Elements(keys) == V4Elements(cidrs);
    }
  }
}
