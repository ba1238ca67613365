/** Which format a response is rendered in (`negotiateRestFormat`, `resolveRestFormat`). */
module Formats {
  import opened Options
  import opened JsText

  // ---------------------------------------------------------------- scores

  /** How well an offer is accepted: its quality, whether type and subtype are named, and the place
      of the preference in the header. */
  datatype Score = Score(quality: real, specificity: int, index: int)

  const Floor := Score(0.0, -1, 9007199254740991)

  function Compare(l: Score, r: Score): real {
    if l.quality != r.quality then l.quality - r.quality
    else if l.specificity != r.specificity then (l.specificity - r.specificity) as real
    else (r.index - l.index) as real
  }

  predicate Beats(l: Score, r: Score) {
    Compare(l, r) > 0.0
  }

  /** Comparing scores is a total order. */
  lemma CompareIsTotalOrder(a: Score, b: Score, c: Score)
    ensures Compare(a, b) == 0.0 <==> a == b
    ensures Compare(a, b) == -Compare(b, a)
    ensures !Beats(a, b) && !Beats(b, c) ==> !Beats(a, c)
    ensures Beats(a, b) && !Beats(c, b) ==> Beats(a, c)
    ensures a.quality > b.quality ==> Beats(a, b)
    ensures a.quality == b.quality && a.specificity > b.specificity ==> Beats(a, b)
    ensures a.quality == b.quality && a.specificity == b.specificity && a.index < b.index ==> Beats(a, b)
  {
  }

  // ---------------------------------------------------------------- one media type

  /** `index` is the place in the header, counted before entries without a slash are dropped. */
  datatype Preference = Preference(index: nat, mediaRange: string, quality: real)

  function UpToSlash(s: string): (r: string)
    ensures |r| <= |s|
  {
    if s == "" || s[0] == '/' then "" else [s[0]] + UpToSlash(s[1..])
  }

  datatype Half = Absent | Half(text: string)

  /** `[type, subtype] = s.split('/')`. */
  function Halves(s: string): (string, Half) {
    var t := UpToSlash(s);
    (t, if |t| == |s| then Absent else Half(UpToSlash(s[|t| + 1..])))
  }

  predicate Accepts(p: Preference, mediaType: string) {
    var (t, sub) := Halves(p.mediaRange);
    var (wanted, wantedSub) := Halves(mediaType);
    (t == "*" || t == wanted) && (sub == Half("*") || sub == wantedSub)
  }

  function ScoreOf(p: Preference): Score {
    var (t, sub) := Halves(p.mediaRange);
    Score(p.quality, (if t != "*" then 1 else 0) + (if sub != Half("*") then 1 else 0), p.index)
  }

  lemma {:induction false} HalvesOf(t: string, sub: string)
    requires '/' !in t && '/' !in sub
    ensures Halves(t + "/" + sub) == (t, Half(sub))
  {
    UpToFirstSlash(t, "/" + sub);
    UpToFirstSlash(sub, "");
    assert t + "/" + sub == t + ("/" + sub) && (t + "/" + sub)[|t| + 1..] == sub && sub + "" == sub;
  }

  lemma {:induction false} UpToFirstSlash(t: string, rest: string)
    requires '/' !in t && (rest == "" || rest[0] == '/')
    ensures UpToSlash(t + rest) == t
  {
    if t == "" {
      assert t + rest == rest;
    } else {
      assert (t + rest)[0] == t[0] && (t + rest)[1..] == t[1..] + rest && t == [t[0]] + t[1..];
      UpToFirstSlash(t[1..], rest);
    }
  }

  /** A range accepts the media types whose halves are its own, a star standing for any; and it is the more
      specific the fewer stars it has. */
  lemma RangeMeans(p: Preference, t: string, sub: string, wanted: string, wantedSub: string)
    requires '/' !in t && '/' !in sub && '/' !in wanted && '/' !in wantedSub
    requires p.mediaRange == t + "/" + sub
    ensures Accepts(p, wanted + "/" + wantedSub) <==> t in {"*", wanted} && sub in {"*", wantedSub}
    ensures ScoreOf(p).specificity == if t == "*" == sub then 0 else if t == "*" || sub == "*" then 1 else 2
    ensures ScoreOf(p).quality == p.quality && ScoreOf(p).index == p.index
  {
    HalvesOf(t, sub);
    HalvesOf(wanted, wantedSub);
  }

  /** `best` is the greatest score of the preferences that accept the media type, or the floor. */
  ghost predicate IsBest(best: Score, ps: seq<Preference>, mediaType: string) {
    && !Beats(Floor, best)
    && (best == Floor || exists p :: p in ps && Accepts(p, mediaType) && best == ScoreOf(p))
    && forall p | p in ps && Accepts(p, mediaType) :: !Beats(ScoreOf(p), best)
  }

  lemma BestSnoc(ps: seq<Preference>, p: Preference, mediaType: string, best: Score)
    requires IsBest(best, ps, mediaType)
    ensures IsBest(if Accepts(p, mediaType) && Beats(ScoreOf(p), best) then ScoreOf(p) else best, ps + [p], mediaType)
  {
    if Accepts(p, mediaType) && Beats(ScoreOf(p), best) {
      CompareIsTotalOrder(Floor, best, ScoreOf(p));
      assert p in ps + [p];
      forall q | q in ps && Accepts(q, mediaType) ensures !Beats(ScoreOf(q), ScoreOf(p)) {
        CompareIsTotalOrder(ScoreOf(q), best, ScoreOf(p));
      }
    } else if best != Floor {
      var q :| q in ps && Accepts(q, mediaType) && best == ScoreOf(q);
      assert q in ps + [p];
    }
  }

  method AcceptedMediaScore(ps: seq<Preference>, mediaType: string) returns (best: Score)
    ensures IsBest(best, ps, mediaType)
  {
    best := Floor;
    for i := 0 to |ps|
      invariant IsBest(best, ps[..i], mediaType)
    {
      BestSnoc(ps[..i], ps[i], mediaType, best);
      assert ps[..i + 1] == ps[..i] + [ps[i]];
      if !Accepts(ps[i], mediaType) {
        continue;
      }
      var candidate := ScoreOf(ps[i]);
      if Compare(candidate, best) > 0.0 {
        best := candidate;
      }
    }
    assert ps[..|ps|] == ps;
  }

  /** There is one best score. */
  lemma BestIsUnique(a: Score, b: Score, ps: seq<Preference>, mediaType: string)
    requires IsBest(a, ps, mediaType) && IsBest(b, ps, mediaType)
    ensures a == b
  {
    assert !Beats(a, b) && !Beats(b, a);
    CompareIsTotalOrder(a, b, a);
  }

  lemma {:induction false} BestExists(ps: seq<Preference>, mediaType: string)
    ensures exists best :: IsBest(best, ps, mediaType)
  {
    if ps == [] {
      assert IsBest(Floor, ps, mediaType);
    } else {
      var rest, p := ps[..|ps| - 1], ps[|ps| - 1];
      BestExists(rest, mediaType);
      var best :| IsBest(best, rest, mediaType);
      BestSnoc(rest, p, mediaType, best);
      assert rest + [p] == ps;
    }
  }

  ghost function BestScore(ps: seq<Preference>, mediaType: string): (best: Score)
    ensures IsBest(best, ps, mediaType)
  {
    BestExists(ps, mediaType);
    var best :| IsBest(best, ps, mediaType);
    best
  }

  /** What the best score says, for every header: it is the floor exactly when no preference accepts the
      media type, and otherwise that of a preference with the greatest quality, among these with the
      greatest specificity, and among these the earliest in the header. */
  lemma BestIsEarliest(ps: seq<Preference>, mediaType: string)
    requires forall p | p in ps :: p.quality >= 0.0
    ensures var best := BestScore(ps, mediaType);
            && (best == Floor <==> forall p | p in ps :: !Accepts(p, mediaType))
            && (best != Floor ==> exists p :: p in ps && Accepts(p, mediaType) && best == ScoreOf(p))
            && (forall p | p in ps && Accepts(p, mediaType) ::
                  && p.quality <= best.quality
                  && (p.quality == best.quality ==> ScoreOf(p).specificity <= best.specificity)
                  && (p.quality == best.quality && ScoreOf(p).specificity == best.specificity ==>
                        best.index <= p.index))
  {
    var best := BestScore(ps, mediaType);
    forall p | p in ps && Accepts(p, mediaType) ensures !Beats(ScoreOf(p), best) && best != Floor {
      assert !Beats(ScoreOf(p), best);
      assert Beats(ScoreOf(p), Floor);
    }
  }

  /** Of two preferences that accept an offer with equal quality and specificity, the later in the header
      is not the best. */
  lemma EarlierWins(ps: seq<Preference>, mediaType: string, p: Preference, q: Preference)
    requires p in ps && q in ps && Accepts(p, mediaType) && Accepts(q, mediaType)
    requires p.quality == q.quality && ScoreOf(p).specificity == ScoreOf(q).specificity && p.index < q.index
    ensures BestScore(ps, mediaType) != ScoreOf(q)
  {
    assert !Beats(ScoreOf(p), BestScore(ps, mediaType));
  }

  /** Quality ranks before specificity: with `text/html;q=0.1, * / *` an HTML offer scores 1 by the
      range, where section 12.5.1 of RFC 9110 gives it the quality of the most specific entry. */
  lemma QualityBeforeSpecificity()
    ensures var ps := [Preference(0, "text/html", 0.1), Preference(1, "*/*", 1.0)];
            BestScore(ps, "text/html") == Score(1.0, 0, 1)
  {
    var ps := [Preference(0, "text/html", 0.1), Preference(1, "*/*", 1.0)];
    assert UpToSlash("/*") == "" && "*/*"[1..] == "/*" && UpToSlash("*/*") == "*" + UpToSlash("/*")
        && "*/*"[2..] == "*";
    assert "*"[1..] == "" && UpToSlash("*") == "*" + UpToSlash("");
    assert "*" + "" == "*" && UpToSlash("*/*") == "*" && UpToSlash("*") == "*";
    assert Halves("*/*") == ("*", Half("*"));
    assert Accepts(ps[1], "text/html") && ScoreOf(ps[1]) == Score(1.0, 0, 1);
    var best := BestScore(ps, "text/html");
    assert ps[1] in ps && !Beats(Score(1.0, 0, 1), best);
    assert forall p | p in ps :: p == ps[0] || p == ps[1];
  }

  /** The preference the standard goes by: no accepting one is more specific, and none as specific
      has a greater quality. */
  ghost predicate MostSpecific(p: Preference, ps: seq<Preference>, mediaType: string) {
    && p in ps && Accepts(p, mediaType)
    && forall q | q in ps && Accepts(q, mediaType) ::
         || ScoreOf(q).specificity < ScoreOf(p).specificity
         || (ScoreOf(q).specificity == ScoreOf(p).specificity && q.quality <= p.quality)
  }

  lemma {:induction false} MostSpecificExists(ps: seq<Preference>, mediaType: string)
    requires exists p :: p in ps && Accepts(p, mediaType)
    ensures exists p :: MostSpecific(p, ps, mediaType)
  {
    var rest, last := ps[..|ps| - 1], ps[|ps| - 1];
    assert ps == rest + [last];
    if exists p :: p in rest && Accepts(p, mediaType) {
      MostSpecificExists(rest, mediaType);
      var p :| MostSpecific(p, rest, mediaType);
      var s, t := ScoreOf(p).specificity, ScoreOf(last).specificity;
      if Accepts(last, mediaType) && (t > s || (t == s && last.quality > p.quality)) {
        assert MostSpecific(last, ps, mediaType);
      } else {
        assert MostSpecific(p, ps, mediaType);
      }
    } else {
      assert MostSpecific(last, ps, mediaType);
    }
  }

  /** For every header and media type, with qualities as the header is read: the offer has the quality
      that section 12.5.1 of RFC 9110 gives it, that of the most specific range, exactly when no less
      specific range that accepts it has a greater one. */
  lemma {:induction false} QualityAsStandard(ps: seq<Preference>, mediaType: string, p: Preference)
    requires forall q | q in ps :: 0.0 <= q.quality <= 1.0
    requires MostSpecific(p, ps, mediaType)
    ensures BestScore(ps, mediaType).quality == p.quality
       <==> forall q | q in ps && Accepts(q, mediaType) && ScoreOf(q).specificity < ScoreOf(p).specificity ::
              q.quality <= p.quality
  {
    var best := BestScore(ps, mediaType);
    assert !Beats(ScoreOf(p), best);
    forall q | q in ps && Accepts(q, mediaType) ensures q.quality <= best.quality { assert !Beats(ScoreOf(q), best); }
    if best != Floor {
      var r :| r in ps && Accepts(r, mediaType) && best == ScoreOf(r);
    }
  }

  // ---------------------------------------------------------------- the registry

  datatype Target = Resource | Manifest

  /** A render function, known by its name. */
  datatype Renderer = Renderer(name: string)

  datatype Definition = Definition(
    alias: string,
    mediaTypes: seq<string>,
    renderResource: Option<Renderer>,
    renderManifest: Option<Renderer>)

  /** In enumeration order; keys are distinct. */
  type Registry = seq<(string, Definition)>

  /** What `rest.formats.default` holds: nothing, a key, a function, an object with renderers, or some
      other value that counts as true. */
  datatype Default =
    | Unset
    | Named(key: string)
    | Function(renderer: Renderer)
    | Object(definition: Definition)
    | Other

  datatype Config = Config(default: Default, registry: Registry)

  function RendererFor(d: Definition, target: Target): Option<Renderer> {
    if target == Manifest then d.renderManifest else d.renderResource
  }

  function DefaultFormatKey(c: Config, target: Target): string {
    if c.default.Named? then c.default.key
    else if target == Resource && !c.default.Unset? then "default"
    else "json"
  }

  // ---------------------------------------------------------------- negotiation

  /** A format offered with one of its media types, and the score of that. */
  datatype Offer = Offer(format: string, score: Score)

  ghost function MediaOffers(format: string, mediaTypes: seq<string>, ps: seq<Preference>): (r: seq<Offer>)
    ensures |r| == |mediaTypes|
  {
    seq(|mediaTypes|, i requires 0 <= i < |mediaTypes| => Offer(format, BestScore(ps, mediaTypes[i])))
  }

  /** Every media type of every format that can render the target, in order. */
  ghost function Offers(registry: Registry, target: Target, ps: seq<Preference>): seq<Offer> {
    if registry == [] then []
    else
      var last := registry[|registry| - 1];
      Offers(registry[..|registry| - 1], target, ps)
      + if RendererFor(last.1, target).Some? then MediaOffers(last.0, last.1.mediaTypes, ps) else []
  }

  predicate NoneBeats(offers: seq<Offer>, s: Score) {
    forall o | o in offers :: !Beats(o.score, s)
  }

  predicate BeatsAll(offers: seq<Offer>, s: Score) {
    forall o | o in offers :: Beats(s, o.score)
  }

  /** The offer at `k` has the greatest score, and is the first that has it. */
  predicate Wins(offers: seq<Offer>, k: nat) {
    k < |offers| && NoneBeats(offers, offers[k].score) && BeatsAll(offers[..k], offers[k].score)
  }

  lemma WinnerIsUnique(offers: seq<Offer>, k: nat, m: nat)
    requires Wins(offers, k) && Wins(offers, m)
    ensures k == m
  {
    if k < m { EarlierLoses(offers, k, m); } else if m < k { EarlierLoses(offers, m, k); }
  }

  lemma EarlierLoses(offers: seq<Offer>, k: nat, m: nat)
    requires Wins(offers, m) && k < m
    ensures Beats(offers[m].score, offers[k].score) && !Wins(offers, k)
  {
    assert offers[k] in offers[..m] && offers[m] in offers;
  }

  datatype Best = Best(score: Score, format: Option<string>)

  /** The best so far: the floor, or the offer that wins. */
  ghost predicate Leads(offers: seq<Offer>, best: Best) {
    if best.format.None? then best.score == Floor && NoneBeats(offers, Floor)
    else exists k: nat :: Wins(offers, k) && offers[k] == Offer(best.format.value, best.score)
  }

  lemma LeadsSnoc(offers: seq<Offer>, best: Best, o: Offer)
    requires Leads(offers, best)
    ensures Leads(offers + [o], if Beats(o.score, best.score) then Best(o.score, Some(o.format)) else best)
  {
    var next := offers + [o];
    if Beats(o.score, best.score) {
      forall p | p in offers ensures Beats(o.score, p.score) { CompareIsTotalOrder(o.score, best.score, p.score); }
      assert next[..|offers|] == offers;
      assert Wins(next, |offers|);
    } else if best.format.Some? {
      var k: nat :| Wins(offers, k) && offers[k] == Offer(best.format.value, best.score);
      assert next[..k] == offers[..k];
      assert Wins(next, k);
    }
  }

  /** `accept` is nothing when there is no header, or an empty one; otherwise the preferences parsed
      from it. */
  method NegotiateRestFormat(c: Config, accept: Option<seq<Preference>>, target: Target) returns (format: string)
    ensures accept.None? ==> format == DefaultFormatKey(c, target)
    ensures accept.Some? ==> Negotiated(c, accept.value, target, format)
  {
    var fallback := DefaultFormatKey(c, target);
    if accept.None? { return fallback; }
    var ps := accept.value;
    if |ps| == 0 {
      FallbackIsNegotiated(c, target);
      return fallback;
    }
    var best := Best(Floor, None);
    for i := 0 to |c.registry|
      invariant Leads(Offers(c.registry[..i], target, ps), best)
    {
      var (key, definition) := c.registry[i];
      ghost var before := Offers(c.registry[..i], target, ps);
      OffersSnoc(c.registry, i, target, ps);
      if RendererFor(definition, target).None? {
        continue;
      }
      best := BestOfFormat(ps, key, definition.mediaTypes, before, best);
    }
    assert c.registry[..|c.registry|] == c.registry;
    LeaderIsNegotiated(c, ps, target, best);
    format := if best.score.quality > 0.0 then best.format.value else fallback;
  }

  /** The inner loop, over the media types of one format. */
  method BestOfFormat(ps: seq<Preference>, format: string, mediaTypes: seq<string>, ghost before: seq<Offer>,
                      found: Best)
    returns (best: Best)
    requires Leads(before, found)
    ensures Leads(before + MediaOffers(format, mediaTypes, ps), best)
  {
    best := found;
    ghost var all := MediaOffers(format, mediaTypes, ps);
    assert before + all[..0] == before;
    for j := 0 to |mediaTypes|
      invariant Leads(before + all[..j], best)
    {
      var score := AcceptedMediaScore(ps, mediaTypes[j]);
      BestIsUnique(score, BestScore(ps, mediaTypes[j]), ps, mediaTypes[j]);
      LeadsSnoc(before + all[..j], best, all[j]);
      assert (before + all[..j]) + [all[j]] == before + all[..j + 1];
      if Compare(score, best.score) > 0.0 {
        best := Best(score, Some(format));
      }
    }
    assert all[..|all|] == all;
  }

  /** The answer is the format of the first offer with the greatest score; when no offer has a quality
      above zero it is the default format. */
  ghost predicate Negotiated(c: Config, ps: seq<Preference>, target: Target, format: string) {
    var offers := Offers(c.registry, target, ps);
    if exists o :: o in offers && o.score.quality > 0.0 then
      exists k: nat :: Wins(offers, k) && offers[k].format == format
    else
      format == DefaultFormatKey(c, target)
  }

  lemma {:induction false} NothingAccepted(registry: Registry, target: Target)
    ensures forall o | o in Offers(registry, target, []) :: o.score == Floor
  {
    if registry != [] { NothingAccepted(registry[..|registry| - 1], target); }
  }

  lemma FallbackIsNegotiated(c: Config, target: Target)
    ensures Negotiated(c, [], target, DefaultFormatKey(c, target))
  {
    NothingAccepted(c.registry, target);
  }

  lemma OffersSnoc(registry: Registry, i: nat, target: Target, ps: seq<Preference>)
    requires i < |registry|
    ensures Offers(registry[..i + 1], target, ps)
         == if RendererFor(registry[i].1, target).None? then Offers(registry[..i], target, ps)
            else Offers(registry[..i], target, ps) + MediaOffers(registry[i].0, registry[i].1.mediaTypes, ps)
  {
    var more := registry[..i + 1];
    assert more[|more| - 1] == registry[i] && more[..|more| - 1] == registry[..i];
    assert Offers(registry[..i], target, ps) + [] == Offers(registry[..i], target, ps);
  }

  lemma LeaderIsNegotiated(c: Config, ps: seq<Preference>, target: Target, best: Best)
    requires Leads(Offers(c.registry, target, ps), best)
    ensures best.score.quality > 0.0 ==> best.format.Some?
    ensures Negotiated(c, ps, target, if best.score.quality > 0.0 then best.format.value
        else DefaultFormatKey(c, target))
  {
  }

  // ---------------------------------------------------------------- aliases

  function NormalKey(key: string): string {
    Trim(if key != "" && key[0] == '.' then key[1..] else key)
  }

  function Lookup(registry: Registry, key: string): Option<Definition> {
    if registry == [] then None
    else if registry[0].0 == key then Some(registry[0].1)
    else Lookup(registry[1..], key)
  }

  datatype Resolved = Resolved(key: string, renderer: Renderer)

  /** Where one key leads: to a renderer, nowhere, or to another key. */
  datatype Hop = Renders(resolved: Resolved) | Stops | To(key: string)

  function DefaultHop(c: Config, target: Target): Hop {
    match c.default
    case Named(key) => To(key)
    case Function(renderer) => if target == Resource then Renders(Resolved("default", renderer)) else To("json")
    case Object(definition) =>
      (match RendererFor(definition, target)
        case Some(renderer) => Renders(Resolved("default", renderer))
        case None => To("json"))
    case _ => To("json")
  }

  function HopOf(c: Config, target: Target, key: string): Hop {
    var k := NormalKey(key);
    if k == "" then Stops
    else if k == "default" then DefaultHop(c, target)
    else match Lookup(c.registry, k)
      case None => Stops
      case Some(definition) =>
        if definition.alias != "" then To(definition.alias)
        else match RendererFor(definition, target)
          case None => Stops
          case Some(renderer) => Renders(Resolved(k, renderer))
  }

  /** The keys the search can add to those seen. */
  function Known(c: Config): set<string> {
    {"default"} + set i | 0 <= i < |c.registry| :: c.registry[i].0
  }

  lemma {:induction false} FoundIsKnown(registry: Registry, key: string)
    requires Lookup(registry, key).Some?
    ensures exists i :: 0 <= i < |registry| && registry[i] == (key, Lookup(registry, key).value)
  {
    if registry[0].0 == key {
      assert registry[0] == (key, Lookup(registry, key).value);
    } else {
      FoundIsKnown(registry[1..], key);
      var i :| 0 <= i < |registry[1..]| && registry[1..][i] == (key, Lookup(registry, key).value);
      assert registry[i + 1] == registry[1..][i];
    }
  }

  lemma HopIsKnown(c: Config, target: Target, key: string)
    ensures HopOf(c, target, key).To? ==> NormalKey(key) in Known(c)
  {
    var k := NormalKey(key);
    if k != "default" && Lookup(c.registry, k).Some? {
      FoundIsKnown(c.registry, k);
      var i :| 0 <= i < |c.registry| && c.registry[i] == (k, Lookup(c.registry, k).value);
      assert c.registry[i].0 in Known(c);
    }
  }

  lemma Fewer(c: Config, target: Target, key: string, seen: set<string>)
    requires HopOf(c, target, key).To? && NormalKey(key) !in seen
    ensures |Known(c) - (seen + {NormalKey(key)})| < |Known(c) - seen|
  {
    HopIsKnown(c, target, key);
    var k := NormalKey(key);
    assert Known(c) - (seen + {k}) == (Known(c) - seen) - {k};
  }

  /** `resolveRestFormatFromRegistry`; it ends on every configuration, as the keys not seen yet get
      fewer. */
  function Resolve(c: Config, target: Target, key: string, seen: set<string>): Option<Resolved>
    decreases |Known(c) - seen|
  {
    var k := NormalKey(key);
    if k == "" || k in seen then None
    else match HopOf(c, target, key)
      case Renders(r) => Some(r)
      case Stops => None
      case To(next) =>
        Fewer(c, target, key, seen);
        Resolve(c, target, next, seen + {k})
  }

  /** The hop after following `steps` keys. */
  function After(c: Config, target: Target, key: string, steps: nat): Hop
    decreases steps
  {
    if steps == 0 then HopOf(c, target, key)
    else match HopOf(c, target, key)
      case To(next) => After(c, target, next, steps - 1)
      case h => h
  }

  /** The chain from `key` first meets a renderer, `r`, after exactly `steps` hops. */
  predicate Reaches(c: Config, target: Target, key: string, steps: nat, r: Resolved)
    decreases steps
  {
    match HopOf(c, target, key)
    case Renders(found) => steps == 0 && found == r
    case Stops => false
    case To(next) => steps > 0 && Reaches(c, target, next, steps - 1, r)
  }

  lemma {:induction false} AfterReaches(c: Config, target: Target, key: string, steps: nat, r: Resolved)
                                        returns (n: nat)
    requires After(c, target, key, steps) == Renders(r)
    ensures Reaches(c, target, key, n, r)
    decreases steps
  {
    n := 0;
    if HopOf(c, target, key).To? {
      n := AfterReaches(c, target, HopOf(c, target, key).key, steps - 1, r);
      n := n + 1;
    }
  }

  lemma {:induction false} ReachesAfter(c: Config, target: Target, key: string, steps: nat, r: Resolved)
    requires Reaches(c, target, key, steps, r)
    ensures After(c, target, key, steps) == Renders(r)
    decreases steps
  {
    if steps > 0 { ReachesAfter(c, target, HopOf(c, target, key).key, steps - 1, r); }
  }

  /** The normalised keys the chain passes on its first `steps` hops. */
  function Passed(c: Config, target: Target, key: string, steps: nat): set<string>
    decreases steps
  {
    {NormalKey(key)} + match HopOf(c, target, key)
      case To(next) => if steps == 0 then {} else Passed(c, target, next, steps - 1)
      case _ => {}
  }

  lemma HopByNormalKey(c: Config, target: Target, a: string, b: string)
    requires NormalKey(a) == NormalKey(b)
    ensures HopOf(c, target, a) == HopOf(c, target, b)
  {
  }

  /** From a key passed on the way the renderer is nearer. */
  lemma {:induction false} PassedIsNearer(c: Config, target: Target, key: string, steps: nat, r: Resolved, k: string)
                                          returns (n: nat)
    requires Reaches(c, target, key, steps, r) && NormalKey(k) in Passed(c, target, key, steps)
    ensures n <= steps && Reaches(c, target, k, n, r)
    decreases steps
  {
    n := steps;
    if NormalKey(k) == NormalKey(key) {
      HopByNormalKey(c, target, k, key);
    } else {
      n := PassedIsNearer(c, target, HopOf(c, target, key).key, steps - 1, r, k);
    }
  }

  lemma {:induction false} DistanceIsUnique(c: Config, target: Target, key: string, m: nat, n: nat, r: Resolved)
    requires Reaches(c, target, key, m, r) && Reaches(c, target, key, n, r)
    ensures m == n
    decreases m
  {
    if HopOf(c, target, key).To? { DistanceIsUnique(c, target, HopOf(c, target, key).key, m - 1, n - 1, r); }
  }

  lemma NotPassedAgain(c: Config, target: Target, key: string, steps: nat, r: Resolved)
    requires Reaches(c, target, key, steps, r) && steps > 0
    ensures NormalKey(key) !in Passed(c, target, HopOf(c, target, key).key, steps - 1)
  {
    var next := HopOf(c, target, key).key;
    if NormalKey(key) in Passed(c, target, next, steps - 1) {
      var n := PassedIsNearer(c, target, next, steps - 1, r, key);
      DistanceIsUnique(c, target, key, steps, n, r);
    }
  }

  /** A chain that meets a renderer passes no key twice, so the keys seen do not stop the search. */
  lemma {:induction false} ReachedIsResolved(c: Config, target: Target, key: string, steps: nat, r: Resolved,
                                             seen: set<string>)
    requires Reaches(c, target, key, steps, r) && Passed(c, target, key, steps) !! seen
    ensures Resolve(c, target, key, seen) == Some(r)
    decreases steps
  {
    assert NormalKey(key) in Passed(c, target, key, steps);
    if steps > 0 {
      NotPassedAgain(c, target, key, steps, r);
      ReachedIsResolved(c, target, HopOf(c, target, key).key, steps - 1, r, seen + {NormalKey(key)});
    }
  }

  lemma {:induction false} ResolvedIsReached(c: Config, target: Target, key: string, seen: set<string>) returns (n: nat)
    requires Resolve(c, target, key, seen).Some?
    ensures Reaches(c, target, key, n, Resolve(c, target, key, seen).value)
    decreases |Known(c) - seen|
  {
    n := 0;
    if HopOf(c, target, key).To? {
      Fewer(c, target, key, seen);
      n := ResolvedIsReached(c, target, HopOf(c, target, key).key, seen + {NormalKey(key)});
      n := n + 1;
    }
  }

  /** A key resolves to a renderer exactly when following the aliases from it meets that renderer;
      it resolves to nothing exactly when the chain stops at an unknown key, an empty one or a
      missing renderer, or goes round for ever. */
  lemma ResolveFollowsChain(c: Config, target: Target, key: string, r: Resolved)
    ensures Resolve(c, target, key, {}) == Some(r) <==> exists n :: After(c, target, key, n) == Renders(r)
    ensures Resolve(c, target, key, {}).None? <==> forall n :: !After(c, target, key, n).Renders?
  {
    if Resolve(c, target, key, {}).Some? {
      var found := Resolve(c, target, key, {}).value;
      var n := ResolvedIsReached(c, target, key, {});
      ReachesAfter(c, target, key, n, found);
    }
    forall n | After(c, target, key, n).Renders?
      ensures Resolve(c, target, key, {}) == Some(After(c, target, key, n).resolved)
    {
      var found := After(c, target, key, n).resolved;
      var m := AfterReaches(c, target, key, n, found);
      ReachedIsResolved(c, target, key, m, found, {});
    }
  }

  /** A default that names itself goes round. */
  lemma DefaultOfDefault(c: Config, target: Target)
    requires c.default == Named("default")
    ensures Resolve(c, target, DefaultFormatKey(c, target), {}).None?
  {
    assert NormalKey("default") == "default";
  }

  lemma {:induction false} OfferIsListed(registry: Registry, target: Target, ps: seq<Preference>, o: Offer)
                                         returns (i: nat)
    requires o in Offers(registry, target, ps)
    ensures i < |registry| && registry[i].0 == o.format && RendererFor(registry[i].1, target).Some?
  {
    var rest := registry[..|registry| - 1];
    i := |rest|;
    if o in Offers(rest, target, ps) { i := OfferIsListed(rest, target, ps, o); }
  }

  ghost predicate RegistryOk(registry: Registry) {
    && (forall i, j | 0 <= i < j < |registry| :: registry[i].0 != registry[j].0)
    && forall i | 0 <= i < |registry| ::
         && NormalKey(registry[i].0) == registry[i].0 && registry[i].0 != "" && registry[i].0 != "default"
         && (registry[i].1.alias != "" ==> registry[i].1.renderResource.None? && registry[i].1.renderManifest.None?)
  }

  lemma {:induction false} LookupAt(registry: Registry, i: nat)
    requires i < |registry| && forall a, b | 0 <= a < b < |registry| :: registry[a].0 != registry[b].0
    ensures Lookup(registry, registry[i].0) == Some(registry[i].1)
  {
    if i > 0 {
      assert registry[0].0 != registry[i].0 && registry[1..][i - 1] == registry[i];
      LookupAt(registry[1..], i - 1);
    }
  }

  /** A format that negotiation takes from the registry resolves, under its own key. */
  lemma {:induction false} NegotiatedResolves(c: Config, ps: seq<Preference>, target: Target, format: string)
    requires RegistryOk(c.registry) && Negotiated(c, ps, target, format)
    requires exists o :: o in Offers(c.registry, target, ps) && o.score.quality > 0.0
    ensures Resolve(c, target, format, {}).Some? && Resolve(c, target, format, {}).value.key == format
  {
    var offers := Offers(c.registry, target, ps);
    var k: nat :| Wins(offers, k) && offers[k].format == format;
    var i := OfferIsListed(c.registry, target, ps, offers[k]);
    OwnRenderer(c, target, i);
  }

  lemma OwnRenderer(c: Config, target: Target, i: nat)
    requires RegistryOk(c.registry) && i < |c.registry| && RendererFor(c.registry[i].1, target).Some?
    ensures Resolve(c, target, c.registry[i].0, {})
         == Some(Resolved(c.registry[i].0, RendererFor(c.registry[i].1, target).value))
  {
    LookupAt(c.registry, i);
  }

  // ---------------------------------------------------------------- what the keys of a registry mean

  /** The first entry of the registry with this key. */
  predicate FirstWithKey(registry: Registry, i: nat, key: string) {
    i < |registry| && registry[i].0 == key && forall j | 0 <= j < i :: registry[j].0 != key
  }

  lemma {:induction false} FirstIsFound(registry: Registry, key: string)
    ensures forall i: nat | FirstWithKey(registry, i, key) :: Lookup(registry, key) == Some(registry[i].1)
    ensures (forall i | 0 <= i < |registry| :: registry[i].0 != key) ==> Lookup(registry, key) == None
  {
    if registry != [] {
      FirstIsFound(registry[1..], key);
      forall i: nat | FirstWithKey(registry, i, key) ensures Lookup(registry, key) == Some(registry[i].1) {
        if i > 0 {
          assert registry[0].0 != key && registry[1..][i - 1] == registry[i];
          assert forall j | 0 <= j < i - 1 :: registry[1..][j] == registry[j + 1];
          assert FirstWithKey(registry[1..], i - 1, key);
        }
      }
    }
  }

  /** A key reads the same with a point in front, as file extensions have it. */
  lemma PointIsDropped(key: string)
    requires Trimmed(key) && (key != "" ==> key[0] != '.')
    ensures NormalKey(key) == key && NormalKey("." + key) == key
  {
    TrimmedStays(key);
    assert ("." + key)[1..] == key;
  }

  function OwnRendererOf(d: Definition, target: Target): Option<Renderer> {
    match target case Manifest => d.renderManifest case Resource => d.renderResource
  }

  /** A definition with a renderer for the target and no alias is what its key resolves to; without one the
      key resolves to nothing, as unknown keys do. */
  lemma DefinedKeyResolves(c: Config, target: Target, key: string, i: nat)
    requires NormalKey(key) != "" && NormalKey(key) != "default"
    requires FirstWithKey(c.registry, i, NormalKey(key)) && c.registry[i].1.alias == ""
    ensures var d := c.registry[i].1;
            Resolve(c, target, key, {})
            == if OwnRendererOf(d, target).None? then None
               else Some(Resolved(NormalKey(key), OwnRendererOf(d, target).value))
  {
    FirstIsFound(c.registry, NormalKey(key));
  }

  lemma UnknownKeyResolves(c: Config, target: Target, key: string)
    requires NormalKey(key) != "default" && forall i | 0 <= i < |c.registry| :: c.registry[i].0 != NormalKey(key)
    ensures Resolve(c, target, key, {}).None?
  {
    FirstIsFound(c.registry, NormalKey(key));
  }

  /** A hop on the way changes nothing about where the way leads. */
  lemma HopResolves(c: Config, target: Target, key: string, next: string, r: Resolved)
    requires HopOf(c, target, key) == To(next) && Resolve(c, target, next, {}) == Some(r)
    ensures Resolve(c, target, key, {}) == Some(r)
  {
    ResolveFollowsChain(c, target, next, r);
    var n: nat :| After(c, target, next, n) == Renders(r);
    var steps: nat := n + 1;
    assert After(c, target, key, steps) == Renders(r);
    ResolveFollowsChain(c, target, key, r);
  }

  /** An alias resolves to what it stands for, however long the chain from there is. */
  lemma AliasResolves(c: Config, target: Target, key: string, i: nat, r: Resolved)
    requires NormalKey(key) != "" && NormalKey(key) != "default"
    requires FirstWithKey(c.registry, i, NormalKey(key)) && c.registry[i].1.alias != ""
    requires Resolve(c, target, c.registry[i].1.alias, {}) == Some(r)
    ensures Resolve(c, target, key, {}) == Some(r)
  {
    FirstIsFound(c.registry, NormalKey(key));
    HopResolves(c, target, key, c.registry[i].1.alias, r);
  }

  /** The default names no key and has no renderer for the target. */
  predicate LeadsToJson(d: Default, target: Target) {
    && !d.Named? && !(d.Function? && target == Resource)
    && !(d.Object? && OwnRendererOf(d.definition, target).Some?)
  }

  /** The key `default` resolves to the configured default: the key it names, or the renderer it has for the
      target, and to `json` when it has none. */
  lemma DefaultResolves(c: Config, target: Target, r: Resolved)
    ensures c.default.Named? && Resolve(c, target, c.default.key, {}) == Some(r) ==>
              Resolve(c, target, "default", {}) == Some(r)
    ensures LeadsToJson(c.default, target) && Resolve(c, target, "json", {}) == Some(r) ==>
              Resolve(c, target, "default", {}) == Some(r)
  {
    assert NormalKey("default") == "default";
    var h := HopOf(c, target, "default");
    if h.To? && Resolve(c, target, h.key, {}) == Some(r) { HopResolves(c, target, "default", h.key, r); }
  }

  lemma DefaultRenders(c: Config, target: Target)
    ensures c.default.Function? && target == Resource ==>
              Resolve(c, target, "default", {}) == Some(Resolved("default", c.default.renderer))
    ensures c.default.Object? && OwnRendererOf(c.default.definition, target).Some? ==>
              Resolve(c, target, "default", {})
              == Some(Resolved("default", OwnRendererOf(c.default.definition, target).value))
  {
    assert NormalKey("default") == "default";
  }

  /** The format that is fallen back to: the key that the default names, else the default itself where it can
      render the target, else `json`. */
  lemma FallbackKey(c: Config, target: Target)
    ensures match c.default
            case Named(key) => DefaultFormatKey(c, target) == key
            case Unset => DefaultFormatKey(c, target) == "json"
            case _ => DefaultFormatKey(c, target) == if target == Manifest then "json" else "default"
  {
  }
}
