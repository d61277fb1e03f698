/** The store-and-forward relay simulator: source A, relay B, destination C, one step per time slice. */
module Cisnet {
  import opened RealArith
  import opened Rounding
  import opened Wrappers

  datatype LinkType = Optical | Rf

  datatype Link = Link(name: string, src: string, dst: string, kind: LinkType, rate: real, survival: real, up: bool,
                       trusted: bool)

  datatype Fault = Fault(start: int, end: int, linkName: string, nodeName: string, multiplier: Option<real>,
                         survival: Option<real>, forceDown: bool)

  datatype Policy = Policy(minimumSurvival: real, allowUntrusted: bool)

  datatype Config = Config(payload: int, links: seq<Link>, faults: seq<Fault>, policy: Policy, dt: int)

  // ----- links and faults -----

  /** The dictionary of links by name: a later link replaces an earlier one of the same name, in its place. */
  function Register(known: seq<Link>, link: Link): seq<Link> {
    if known == [] then [link]
    else if known[0].name == link.name then [link] + known[1..]
    else [known[0]] + Register(known[1..], link)
  }

  function Registered(links: seq<Link>): seq<Link> {
    if links == [] then [] else Register(Registered(links[..|links| - 1]), links[|links| - 1])
  }

  /** Of several links of one name the last one is registered, and nothing else is. */
  lemma {:induction false} RegisteredIsLast(links: seq<Link>, link: Link)
    ensures link in Registered(links) <==> exists i :: 0 <= i < |links| && links[i] == link && NameEndsAt(links, i)
    decreases |links|
  {
    if links != [] {
      var init, last := links[..|links| - 1], links[|links| - 1];
      RegisteredIsLast(init, link);
      RegisteredNamesDiffer(init);
      RegisterReplaces(Registered(init), last, link);
      assert links == init + [last];
      LastOfName(init, last, link);
    }
  }

  lemma LastOfName(init: seq<Link>, last: Link, link: Link)
    ensures (exists i :: 0 <= i <= |init| && (init + [last])[i] == link && NameEndsAt(init + [last], i)) <==>
            link == last ||
            (link.name != last.name && exists i :: 0 <= i < |init| && init[i] == link && NameEndsAt(init, i))
  {
    var links := init + [last];
    assert links[|init|] == last && NameEndsAt(links, |init|);
    assert forall i :: 0 <= i < |init| ==> links[i] == init[i];
    forall i | 0 <= i < |init| ensures NameEndsAt(links, i) <==> NameEndsAt(init, i) && init[i].name != last.name {
      assert NameEndsAt(links, i) ==> links[|init|].name != links[i].name;
    }
  }

  /** No later link has the name of link i. */
  predicate NameEndsAt(links: seq<Link>, i: nat)
    requires i < |links|
  {
    forall j :: i < j < |links| ==> links[j].name != links[i].name
  }

  ghost predicate NamesDiffer(links: seq<Link>) {
    forall i, j :: 0 <= i < j < |links| ==> links[i].name != links[j].name
  }

  lemma {:induction false} RegisteredNamesDiffer(links: seq<Link>)
    ensures NamesDiffer(Registered(links))
    decreases |links|
  {
    if links != [] {
      RegisteredNamesDiffer(links[..|links| - 1]);
      RegisterKeepsNames(Registered(links[..|links| - 1]), links[|links| - 1]);
    }
  }

  lemma {:induction false} RegisterReplaces(known: seq<Link>, link: Link, other: Link)
    requires NamesDiffer(known)
    ensures other in Register(known, link) <==> other == link || (other in known && other.name != link.name)
  {
    if known != [] {
      RegisterReplaces(known[1..], link, other);
      assert known == [known[0]] + known[1..];
    }
  }

  lemma {:induction false} RegisterKeepsNames(known: seq<Link>, link: Link)
    requires NamesDiffer(known)
    ensures NamesDiffer(Register(known, link))
  {
    if known != [] && known[0].name != link.name {
      RegisterKeepsNames(known[1..], link);
      forall other | other in Register(known[1..], link) ensures other.name != known[0].name {
        RegisterReplaces(known[1..], link, other);
      }
    }
  }

  predicate Active(f: Fault, t: int) {
    f.start <= t < f.end
  }

  /** One fault's effect on one link; an empty name stands for no name. */
  function Impair(link: Link, f: Fault, t: int): Link {
    if !Active(f, t) || f.linkName == "" || f.linkName != link.name then link else
      link.(up := link.up && !f.forceDown,
            rate := if f.multiplier.Some? then Product(link.rate, f.multiplier.value) else link.rate,
            survival := if f.survival.Some? then f.survival.value else link.survival)
  }

  /** A link with every active fault applied, in the order of the schedule. */
  function Impaired(link: Link, faults: seq<Fault>, t: int): Link {
    if faults == [] then link else Impair(Impaired(link, faults[..|faults| - 1], t), faults[|faults| - 1], t)
  }

  /** The named link is hit at time t: from the start of the window up to, not including, its end. */
  predicate Hits(f: Fault, link: Link, t: int) {
    f.start <= t && t < f.end && link.name != "" && f.linkName == link.name
  }

  /** A link works at time t exactly when it works without faults and no fault in its window forces it down, and it
      survives as the last such fault with a probability of its own says. */
  lemma {:induction false} ImpairedMeaning(link: Link, faults: seq<Fault>, t: int)
    ensures var hit := Impaired(link, faults, t);
            && hit == link.(up := hit.up, rate := hit.rate, survival := hit.survival)
            && (hit.up <==>
                  link.up && forall i :: 0 <= i < |faults| && Hits(faults[i], link, t) ==> !faults[i].forceDown)
    ensures forall i :: 0 <= i < |faults| && Hits(faults[i], link, t) && faults[i].survival.Some? &&
                        (forall j :: i < j < |faults| && Hits(faults[j], link, t) ==> faults[j].survival.None?) ==>
                        Impaired(link, faults, t).survival == faults[i].survival.value
    ensures (forall i :: 0 <= i < |faults| && Hits(faults[i], link, t) ==> faults[i].survival.None?) ==>
              Impaired(link, faults, t).survival == link.survival
    ensures (forall i :: 0 <= i < |faults| && Hits(faults[i], link, t) ==> faults[i].multiplier.None?) ==>
              Impaired(link, faults, t).rate == link.rate
    decreases |faults|
  {
    if faults != [] {
      var init, last := faults[..|faults| - 1], faults[|faults| - 1];
      ImpairedMeaning(link, init, t);
      assert faults == init + [last];
      assert Impair(Impaired(link, init, t), last, t) != Impaired(link, init, t) ==> Hits(last, link, t);
    }
  }

  function LinksAt(base: seq<Link>, faults: seq<Fault>, t: int): (r: seq<Link>)
    ensures |r| == |base|
  {
    seq(|base|, (i: nat) requires i < |base| => Impaired(base[i], faults, t))
  }

  function DownNodes(faults: seq<Fault>, t: int): set<string> {
    set i | 0 <= i < |faults| && Active(faults[i], t) && faults[i].nodeName != "" :: faults[i].nodeName
  }

  function Capacity(link: Link): real {
    link.rate * 1000000.0 / 8.0
  }

  /** What a link carries in one step. */
  function StepCapacity(link: Link, dt: int): real {
    Product(Capacity(link), dt as real)
  }

  // ----- route choice -----

  predicate Authorized(p: Policy, link: Link) {
    link.up && (link.trusted || p.allowUntrusted) && link.survival >= p.minimumSurvival
  }

  function Score(link: Link): real {
    Product(Product(link.rate, link.survival), if link.kind == Optical then 1.08 else 1.0)
  }

  /** The first authorised link of the best score on a leg. */
  function Select(p: Policy, links: seq<Link>, src: string, dst: string): Option<Link> {
    if links == [] then None else
      var best := Select(p, links[..|links| - 1], src, dst);
      var last := links[|links| - 1];
      if last.src != src || last.dst != dst || !Authorized(p, last) then best
      else if best.Some? && Score(best.value) >= Score(last) then best
      else Some(last)
  }

  /** Link i may serve the leg. */
  predicate Serves(p: Policy, links: seq<Link>, src: string, dst: string, i: nat)
    requires i < |links|
  {
    && links[i].src == src && links[i].dst == dst
    && links[i].up && (p.allowUntrusted || links[i].trusted) && p.minimumSurvival <= links[i].survival
  }

  /** The score is the rate times the survival probability, and eight per cent more for an optical link. */
  lemma OpticalBonus(link: Link)
    ensures Score(link) == Product(link.survival, link.rate) * (if link.kind.Rf? then 1.0 else 1.08)
  {
  }

  /** Link i serves the leg, scores no less than any that does, and more than every such link before it. */
  ghost predicate IsBest(p: Policy, links: seq<Link>, src: string, dst: string, i: nat)
    requires i < |links|
  {
    && Serves(p, links, src, dst, i)
    && forall j :: 0 <= j < |links| && Serves(p, links, src, dst, j) ==>
                   Score(links[i]) >= Score(links[j]) && (j < i ==> Score(links[i]) > Score(links[j]))
  }

  /** No route is chosen exactly when no link may serve the leg; otherwise the first of the best ones is. */
  lemma {:induction false} SelectIsBest(p: Policy, links: seq<Link>, src: string, dst: string)
    ensures var best := Select(p, links, src, dst);
            && (best.None? <==> forall i :: 0 <= i < |links| ==> !Serves(p, links, src, dst, i))
            && (best.Some? ==> exists i :: 0 <= i < |links| && IsBest(p, links, src, dst, i) && links[i] == best.value)
    decreases |links|
  {
    if links != [] {
      var init, last := links[..|links| - 1], links[|links| - 1];
      SelectIsBest(p, init, src, dst);
      assert forall i :: 0 <= i < |init| ==> init[i] == links[i]
                                             && (Serves(p, links, src, dst, i) <==> Serves(p, init, src, dst, i));
      hide Score;
      var best := Select(p, links, src, dst);
      var earlier := Select(p, init, src, dst);
      if earlier.Some? {
        var i :| 0 <= i < |init| && IsBest(p, init, src, dst, i) && init[i] == earlier.value;
        assert Serves(p, links, src, dst, i);
        assert best == earlier ==> IsBest(p, links, src, dst, i);
      }
      assert best == Some(last) && best != earlier ==> IsBest(p, links, src, dst, |links| - 1);
    }
  }

  lemma {:induction false} SelectedFromLinks(p: Policy, links: seq<Link>, src: string, dst: string)
    ensures var best := Select(p, links, src, dst);
            best.Some? ==> best.value in links && best.value.src == src && best.value.dst == dst
                           && Authorized(p, best.value)
    decreases |links|
  {
    hide Score, Authorized;
    if links == [] {
    } else {
      var init, last := links[..|links| - 1], links[|links| - 1];
      assert links == init + [last];
      SelectedFromLinks(p, init, src, dst);
    }
  }

  /** The route of a leg in a time slice, unless one of its ends is down. */
  function Route(c: Config, base: seq<Link>, t: int, src: string, dst: string): Option<Link> {
    var down := DownNodes(c.faults, t);
    if src in down || dst in down then None else Select(c.policy, LinksAt(base, c.faults, t), src, dst)
  }

  // ----- one step -----

  datatype Transfer = Transfer(source: real, relay: real, dest: real, maxRelay: real, linkBytes: map<string, real>)

  function Min(a: real, b: real): real {
    if a <= b then a else b
  }

  function Larger(a: real, b: real): real {
    if a >= b then a else b
  }

  function Credit(bytes: map<string, real>, name: string, amount: real): map<string, real> {
    bytes[name := (if name in bytes then bytes[name] else 0.0) + amount]
  }

  /** The relay sends first, from what it held before the step. */
  function Forward(s: Transfer, bc: Option<Link>, dt: int): Transfer {
    if bc.None? || s.relay <= 0.0 then s else
      var sent := Min(StepCapacity(bc.value, dt), s.relay);
      s.(relay := s.relay - sent, dest := s.dest + sent, linkBytes := Credit(s.linkBytes, bc.value.name, sent))
  }

  function Upload(s: Transfer, ab: Option<Link>, dt: int): Transfer {
    if ab.None? || s.source <= 0.0 then s else
      var moved := Min(StepCapacity(ab.value, dt), s.source);
      s.(source := s.source - moved, relay := s.relay + moved, linkBytes := Credit(s.linkBytes, ab.value.name, moved))
  }

  function Step(s: Transfer, ab: Option<Link>, bc: Option<Link>, dt: int): Transfer {
    var next := Upload(Forward(s, bc, dt), ab, dt);
    next.(maxRelay := Larger(next.maxRelay, next.relay))
  }

  function Start(payload: int): Transfer {
    Transfer(payload as real, 0.0, 0.0, 0.0, map[])
  }

  /** The transfer after k steps, before any completion snap. */
  function After(c: Config, base: seq<Link>, k: nat): Transfer {
    if k == 0 then Start(c.payload) else
      var t := (k - 1) * c.dt;
      Step(After(c, base, k - 1), Route(c, base, t, "A", "B"), Route(c, base, t, "B", "C"), c.dt)
  }

  predicate Arrived(c: Config, s: Transfer) {
    s.dest >= c.payload as real - 0.5
  }

  // ----- conservation -----

  /** Under any fault schedule no byte is created or lost. */
  lemma {:induction false} Conservation(c: Config, base: seq<Link>, k: nat)
    ensures var s := After(c, base, k);
            s.source + s.relay + s.dest == c.payload as real && s.maxRelay >= s.relay
    decreases k
  {
    hide StepCapacity, Route;
    if k == 0 {
    } else {
      Conservation(c, base, k - 1);
    }
  }

  ghost predicate NonNegativeRates(links: seq<Link>, faults: seq<Fault>) {
    && (forall i :: 0 <= i < |links| ==> links[i].rate >= 0.0)
    && (forall i :: 0 <= i < |faults| && faults[i].multiplier.Some? ==> faults[i].multiplier.value >= 0.0)
  }

  lemma {:induction false} ImpairedRate(link: Link, faults: seq<Fault>, t: int)
    requires link.rate >= 0.0
    requires forall i :: 0 <= i < |faults| && faults[i].multiplier.Some? ==> faults[i].multiplier.value >= 0.0
    ensures Impaired(link, faults, t).rate >= 0.0
    decreases |faults|
  {
    if faults == [] {
    } else {
      var before, f := Impaired(link, faults[..|faults| - 1], t), faults[|faults| - 1];
      ImpairedRate(link, faults[..|faults| - 1], t);
      if f.multiplier.Some? {
        ProductNonNegative(before.rate, f.multiplier.value);
      }
    }
  }

  lemma ProductNonNegative(x: real, y: real)
    requires x >= 0.0 && y >= 0.0
    ensures Product(x, y) >= 0.0
  {
    if x > 0.0 && y > 0.0 {
      ProductOfPositives(x, y);
    }
  }

  lemma RouteCapacity(c: Config, base: seq<Link>, t: int, src: string, dst: string)
    requires NonNegativeRates(base, c.faults) && Route(c, base, t, src, dst).Some? && c.dt > 0
    ensures StepCapacity(Route(c, base, t, src, dst).value, c.dt) >= 0.0
  {
    var links := LinksAt(base, c.faults, t);
    SelectedFromLinks(c.policy, links, src, dst);
    var link := Route(c, base, t, src, dst).value;
    var i :| 0 <= i < |links| && links[i] == link;
    ImpairedRate(base[i], c.faults, t);
    ProductNonNegative(Capacity(link), c.dt as real);
  }

  ghost predicate NonNegative(s: Transfer) {
    s.source >= 0.0 && s.relay >= 0.0 && s.dest >= 0.0
  }

  /** The exact guard of a step: what the relay sends may take back no more than the destination has, and what the
      source uploads may take back no more than the relay is left with. A leg that moves nothing is unconstrained. */
  predicate LegsHold(s: Transfer, ab: Option<Link>, bc: Option<Link>, dt: int) {
    && (bc.Some? && s.relay > 0.0 ==> StepCapacity(bc.value, dt) >= -s.dest)
    && (ab.Some? && s.source > 0.0 ==> StepCapacity(ab.value, dt) >= -Forward(s, bc, dt).relay)
  }

  lemma StepNonNegativeIff(s: Transfer, ab: Option<Link>, bc: Option<Link>, dt: int)
    requires NonNegative(s)
    ensures NonNegative(Step(s, ab, bc, dt)) <==> LegsHold(s, ab, bc, dt)
  {
    hide StepCapacity, Credit;
  }

  /** The guard at step i of a run, over the routes selected there. */
  predicate HoldsAt(c: Config, base: seq<Link>, i: nat) {
    LegsHold(After(c, base, i), Route(c, base, i * c.dt, "A", "B"), Route(c, base, i * c.dt, "B", "C"), c.dt)
  }

  /** No amount of a run is ever negative exactly when every step meets its guard. */
  lemma {:induction false} AmountsNonNegativeIff(c: Config, base: seq<Link>, n: nat)
    requires c.payload > 0
    ensures (forall k :: 0 <= k <= n ==> NonNegative(After(c, base, k))) <==>
            (forall i :: 0 <= i < n ==> HoldsAt(c, base, i))
    decreases n
  {
    hide LegsHold, Route, Step;
    if n == 0 {
      AfterStart(c, base);
    } else {
      AmountsNonNegativeIff(c, base, n - 1);
      AfterNext(c, base, n - 1);
      if NonNegative(After(c, base, n - 1)) {
        StepNonNegativeIff(After(c, base, n - 1), Route(c, base, (n - 1) * c.dt, "A", "B"),
                           Route(c, base, (n - 1) * c.dt, "B", "C"), c.dt);
        assert NonNegative(After(c, base, n)) <==> HoldsAt(c, base, n - 1);
      }
      hide After, HoldsAt, NonNegative;
      assert (forall k :: 0 <= k <= n ==> NonNegative(After(c, base, k))) <==>
             (forall k :: 0 <= k <= n - 1 ==> NonNegative(After(c, base, k))) && NonNegative(After(c, base, n));
      assert (forall i :: 0 <= i < n ==> HoldsAt(c, base, i)) <==>
             (forall i :: 0 <= i < n - 1 ==> HoldsAt(c, base, i)) && HoldsAt(c, base, n - 1);
    }
  }

  lemma NonNegativeCapacitiesHold(s: Transfer, ab: Option<Link>, bc: Option<Link>, dt: int)
    requires NonNegative(s)
    requires (ab.Some? ==> StepCapacity(ab.value, dt) >= 0.0) && (bc.Some? ==> StepCapacity(bc.value, dt) >= 0.0)
    ensures LegsHold(s, ab, bc, dt)
  {
    hide StepCapacity, Credit;
  }

  /** In particular, with no negative rate or multiplier no amount ever becomes negative. */
  lemma {:induction false} AmountsStayNonNegative(c: Config, base: seq<Link>, k: nat)
    requires NonNegativeRates(base, c.faults) && c.payload > 0 && c.dt > 0
    ensures NonNegative(After(c, base, k))
    decreases k
  {
    hide StepCapacity, Route, Step, LegsHold;
    if k == 0 {
    } else {
      AmountsStayNonNegative(c, base, k - 1);
      var t := (k - 1) * c.dt;
      var ab, bc := Route(c, base, t, "A", "B"), Route(c, base, t, "B", "C");
      if ab.Some? {
        RouteCapacity(c, base, t, "A", "B");
      }
      if bc.Some? {
        RouteCapacity(c, base, t, "B", "C");
      }
      NonNegativeCapacitiesHold(After(c, base, k - 1), ab, bc, c.dt);
      StepNonNegativeIff(After(c, base, k - 1), ab, bc, c.dt);
    }
  }

  const UPLINK := Link("ab", "A", "B", Rf, 0.000008, 1.0, true, true)
  const REVERSED := Link("bc", "B", "C", Rf, -0.000008, 1.0, true, true)

  /** Two bytes over one sound link and one of negative rate, without faults. */
  const REVERSED_CONFIG := Config(2, [UPLINK, REVERSED], [], Policy(0.4, false), 1)

  /** A run that leaves the guard: in its second step the relay sends minus one byte to an empty destination. */
  lemma NegativeRateTakesBack()
    ensures After(REVERSED_CONFIG, [UPLINK, REVERSED], 2).dest == -1.0
    ensures HoldsAt(REVERSED_CONFIG, [UPLINK, REVERSED], 0) && !HoldsAt(REVERSED_CONFIG, [UPLINK, REVERSED], 1)
  {
    var c, base := REVERSED_CONFIG, [UPLINK, REVERSED];
    ReversedRoutes(0);
    ReversedRoutes(1);
    assert StepCapacity(UPLINK, 1) == 1.0 && StepCapacity(REVERSED, 1) == -1.0;
    hide Route, StepCapacity, Credit;
    AfterStart(c, base);
    AfterNext(c, base, 0);
    AfterNext(c, base, 1);
    hide After;
    var s := After(c, base, 1);
    assert s.source == 1.0 && s.relay == 1.0 && s.dest == 0.0;
  }

  lemma ReversedRoutes(t: int)
    ensures Route(REVERSED_CONFIG, [UPLINK, REVERSED], t, "A", "B") == Some(UPLINK)
    ensures Route(REVERSED_CONFIG, [UPLINK, REVERSED], t, "B", "C") == Some(REVERSED)
  {
    hide Score;
    var links := LinksAt([UPLINK, REVERSED], [], t);
    assert links == [UPLINK, REVERSED];
    assert links[..1] == [UPLINK] && links[..1][..0] == [];
    assert Select(REVERSED_CONFIG.policy, links[..1], "A", "B") == Some(UPLINK);
    assert Select(REVERSED_CONFIG.policy, links[..1], "B", "C") == None;
  }

  /** Completion rounds the received amount up to the payload, crediting at most half a byte. */
  lemma SnapCreditsAtMostHalf(c: Config, base: seq<Link>, k: nat)
    requires NonNegative(After(c, base, k)) && Arrived(c, After(c, base, k))
    ensures 0.0 <= c.payload as real - After(c, base, k).dest <= 0.5
  {
    hide After;
    Conservation(c, base, k);
  }

  // ----- completion -----

  /** In every one of the first n steps both legs have a route carrying at least b bytes per step. */
  ghost predicate AlwaysOffers(c: Config, base: seq<Link>, b: real, n: nat) {
    forall i :: 0 <= i < n ==> Offers(c, base, b, i)
  }

  ghost predicate Offers(c: Config, base: seq<Link>, b: real, i: nat) {
    var ab, bc := Route(c, base, i * c.dt, "A", "B"), Route(c, base, i * c.dt, "B", "C");
    && ab.Some? && StepCapacity(ab.value, c.dt) >= b
    && bc.Some? && StepCapacity(bc.value, c.dt) >= b
  }

  lemma OneStepProgress(s: Transfer, ab: Link, bc: Link, dt: int, b: real, payload: real, u: real)
    requires StepCapacity(ab, dt) >= b && StepCapacity(bc, dt) >= b > 0.0
    requires s.source + s.relay + s.dest == payload && s.source >= 0.0 && s.relay >= 0.0
    requires payload - s.source >= Min(payload, u) && s.dest >= Min(payload, u - b)
    ensures var n := Step(s, Some(ab), Some(bc), dt);
            && payload - n.source >= Min(payload, u + b) && n.dest >= Min(payload, u)
            && n.source >= 0.0 && n.relay >= 0.0
  {
    hide StepCapacity, Credit;
    var f := Forward(s, Some(bc), dt);
    assert f.dest >= Min(payload, u) && f.relay >= 0.0 && f.source == s.source;
    var n := Upload(f, Some(ab), dt);
    assert payload - n.source >= Min(payload, u + b) && n.source >= 0.0 && n.relay >= 0.0 && n.dest == f.dest;
  }

  /** Uploads stay k steps' worth ahead of zero, and arrivals one step behind them. */
  lemma {:induction false} SteadyProgress(c: Config, base: seq<Link>, b: real, k: nat)
    requires c.payload > 0 && b > 0.0 && AlwaysOffers(c, base, b, k)
    ensures var s, p := After(c, base, k), c.payload as real;
            && s.source >= 0.0 && s.relay >= 0.0
            && p - s.source >= Min(p, Product(k as real, b)) && s.dest >= Min(p, Product(k as real - 1.0, b))
    decreases k
  {
    hide StepCapacity, Route, Step, Product;
    if k == 0 {
      StepProducts(0, b);
    } else {
      SteadyProgress(c, base, b, k - 1);
      Conservation(c, base, k - 1);
      assert Offers(c, base, b, k - 1);
      StepProducts(k, b);
      StepProducts(k - 1, b);
      var t := (k - 1) * c.dt;
      OneStepProgress(After(c, base, k - 1), Route(c, base, t, "A", "B").value, Route(c, base, t, "B", "C").value,
                      c.dt, b, c.payload as real, Product((k - 1) as real, b));
    }
  }

  lemma StepProducts(k: nat, b: real)
    ensures Product(k as real, b) == Product(k as real - 1.0, b) + b
    ensures Product((k as real - 1.0) - 1.0, b) == Product(k as real - 1.0, b) - b
    ensures Product(0.0, b) == 0.0 && (k - 1) as real == k as real - 1.0
  {
  }

  /** Pipelined completion: if n steps' worth of the guaranteed rate covers the payload, step n + 1 completes it. */
  lemma CompletesInTime(c: Config, base: seq<Link>, b: real, n: nat)
    requires c.payload > 0 && b > 0.0 && AlwaysOffers(c, base, b, n + 1)
    requires Product(n as real, b) >= c.payload as real - 0.5
    ensures Arrived(c, After(c, base, n + 1))
  {
    hide Route, After;
    SteadyProgress(c, base, b, n + 1);
    assert Product((n + 1) as real - 1.0, b) == Product(n as real, b);
  }

  // ----- the simulator -----

  datatype SimulationError = BadPayload | BadStep | BadHorizon

  datatype Simulated = Simulated(received: int, completedAt: Option<int>, maxRelay: int, routeChanges: nat,
                                 failovers: nat,
                                 linkBytes: map<string, int>)

  /** Whether taking this route after that one counts as a change, and whether it replaces a working route. */
  function Changes(previous: Option<string>, chosen: Option<Link>): nat {
    if chosen.None? then (if previous.Some? then 1 else 0)
    else if previous == Some(chosen.value.name) then 0 else 1
  }

  function Failovers(previous: Option<string>, chosen: Option<Link>): nat {
    if chosen.Some? && previous.Some? && previous.value != chosen.value.name then 1 else 0
  }

  function NameOf(link: Option<Link>): Option<string> {
    if link.Some? then Some(link.value.name) else None
  }

  /** A leg with an end that is down is not routed, and so not counted. */
  predicate LegUp(c: Config, t: int, src: string, dst: string) {
    src !in DownNodes(c.faults, t) && dst !in DownNodes(c.faults, t)
  }

  function LegChanges(c: Config, base: seq<Link>, t: int, src: string, dst: string, previous: Option<string>): nat {
    if LegUp(c, t, src, dst) then Changes(previous, Route(c, base, t, src, dst)) else 0
  }

  function LegFailovers(c: Config, base: seq<Link>, t: int, src: string, dst: string, previous: Option<string>): nat {
    if LegUp(c, t, src, dst) then Failovers(previous, Route(c, base, t, src, dst)) else 0
  }

  /** The transfer with the last routes and the two counters. */
  datatype Track = Track(transfer: Transfer, lastAb: Option<string>, lastBc: Option<string>, routeChanges: nat,
                         failovers: nat)

  function NextTrack(c: Config, base: seq<Link>, w: Track, t: int): Track {
    var (ab, bc) := (Route(c, base, t, "A", "B"), Route(c, base, t, "B", "C"));
    Track(Step(w.transfer, ab, bc, c.dt), NameOf(ab), NameOf(bc),
          w.routeChanges + LegChanges(c, base, t, "A", "B", w.lastAb) + LegChanges(c, base, t, "B", "C", w.lastBc),
          w.failovers + LegFailovers(c, base, t, "A", "B", w.lastAb) + LegFailovers(c, base, t, "B", "C", w.lastBc))
  }

  /** What k time slices from time zero make of a state. */
  function TrackAfter(c: Config, base: seq<Link>, start: Track, k: nat): Track {
    if k == 0 then start else NextTrack(c, base, TrackAfter(c, base, start, k - 1), (k - 1) * c.dt)
  }

  function NewTrack(payload: int): Track {
    Track(Start(payload), None, None, 0, 0)
  }

  lemma {:induction false} TrackTransfer(c: Config, base: seq<Link>, k: nat)
    ensures TrackAfter(c, base, NewTrack(c.payload), k).transfer == After(c, base, k)
    decreases k
  {
    hide Step, Route, LegChanges, LegFailovers;
    if k == 0 {
    } else {
      TrackTransfer(c, base, k - 1);
    }
  }

  /** A change of route is counted at least as often as a failover. */
  lemma {:induction false} FailoversAreChanges(c: Config, base: seq<Link>, k: nat)
    ensures var w := TrackAfter(c, base, NewTrack(c.payload), k); w.failovers <= w.routeChanges <= 2 * k
    decreases k
  {
    hide Step, Route;
    if k == 0 {
    } else {
      FailoversAreChanges(c, base, k - 1);
    }
  }

  /** Number of steps from time zero up to the horizon. */
  function Steps(horizon: int, dt: int): nat
    requires horizon > 0 && dt > 0
  {
    (horizon + dt - 1) / dt
  }

  /** Step k is made exactly when it starts before the horizon. */
  lemma StepsIff(horizon: int, dt: int, k: nat)
    requires horizon > 0 && dt > 0
    ensures k < Steps(horizon, dt) <==> k * dt < horizon
  {
    var n := Steps(horizon, dt);
    assert n * dt <= horizon + dt - 1 < n * dt + dt;
    if k < n {
      NatProductMonotone(k + 1, n, dt);
    } else {
      NatProductMonotone(n, k, dt);
    }
  }

  lemma InactiveFault(base: seq<Link>, faults: seq<Fault>, k: nat, t: int)
    requires k < |faults| && !Active(faults[k], t)
    ensures LinksAt(base, faults[..k + 1], t) == LinksAt(base, faults[..k], t)
  {
    assert faults[..k + 1][..k] == faults[..k];
  }

  class CisnetSimulation {
    const config: Config
    const base: seq<Link>
    const links: array<Link>
    var source: real
    var relay: real
    var dest: real
    var maxRelay: real
    var linkBytes: map<string, real>
    var lastAb: Option<string>
    var lastBc: Option<string>
    var routeChanges: nat
    var failovers: nat
    var completedAt: Option<int>

    ghost function State(): Track
      reads this
    {
      Track(Transfer(source, relay, dest, maxRelay, linkBytes), lastAb, lastBc, routeChanges, failovers)
    }

    ghost predicate Valid()
      reads this
    {
      links.Length == |base| && config.payload > 0 && config.dt > 0
    }

    constructor (config: Config)
      requires config.payload > 0 && config.dt > 0
      ensures Valid() && fresh(links) && this.config == config && base == Registered(config.links)
      ensures State() == NewTrack(config.payload) && completedAt == None
    {
      var known := RegisterLinks(config.links);
      this.config, base := config, known;
      links := new Link[|known|](i requires 0 <= i < |known| => known[i]);
      source, relay, dest, maxRelay, linkBytes := config.payload as real, 0.0, 0.0, 0.0, map[];
      lastAb, lastBc, routeChanges, failovers, completedAt := None, None, 0, 0, None;
    }

    static method RegisterLinks(links: seq<Link>) returns (known: seq<Link>)
      ensures known == Registered(links)
    {
      known := [];
      for k := 0 to |links|
        invariant known == Registered(links[..k])
      {
        assert links[..k + 1][..k] == links[..k];
        known := RegisterLink(known, links[k]);
      }
      assert links[..|links|] == links;
    }

    /** A later link takes the place of an earlier one of the same name. */
    static method RegisterLink(known: seq<Link>, link: Link) returns (r: seq<Link>)
      ensures r == Register(known, link)
    {
      var i := 0;
      assert known[..0] + Register(known[0..], link) == Register(known, link);
      while i < |known| && known[i].name != link.name
        invariant i <= |known| && Register(known, link) == known[..i] + Register(known[i..], link)
      {
        assert known[i..][1..] == known[i + 1..] && known[i..][0] == known[i];
        assert known[..i] + [known[i]] == known[..i + 1];
        i := i + 1;
      }
      r := if i < |known| then known[..i] + [link] + known[i + 1..] else known + [link];
      if i < |known| {
        assert known[i..][1..] == known[i + 1..] && known[i..][0] == known[i];
        assert Register(known[i..], link) == [link] + known[i + 1..];
      }
    }

    method ResetLinks()
      requires Valid()
      modifies links
      ensures links[..] == base
    {
      for i := 0 to links.Length
        invariant links[..i] == base[..i]
      {
        links[i] := base[i];
      }
    }

    /** Restores every link and applies the active faults in place; reports the nodes that are down. */
    method ApplyFaults(t: int) returns (down: set<string>)
      requires Valid()
      modifies links
      ensures links[..] == LinksAt(base, config.faults, t) && down == DownNodes(config.faults, t)
    {
      ResetLinks();
      down := {};
      var faults := config.faults;
      assert links[..] == LinksAt(base, faults[..0], t);
      for k := 0 to |faults|
        invariant links[..] == LinksAt(base, faults[..k], t) && down == DownNodes(faults[..k], t)
      {
        DownNodesGrow(faults[..k], faults[k], t);
        assert faults[..k + 1] == faults[..k] + [faults[k]];
        if faults[k].start <= t < faults[k].end {
          if faults[k].nodeName != "" {
            down := down + {faults[k].nodeName};
          }
          ImpairLinks(faults, k, t);
        } else {
          InactiveFault(base, faults, k, t);
        }
      }
      assert faults[..|faults|] == faults;
    }

    /** Applies one active fault to the link it names, if there is one. */
    method ImpairLinks(faults: seq<Fault>, k: nat, t: int)
      requires Valid() && k < |faults| && links[..] == LinksAt(base, faults[..k], t)
      requires faults[k].start <= t < faults[k].end
      modifies links
      ensures links[..] == LinksAt(base, faults[..k + 1], t)
    {
      assert faults[..k + 1][..k] == faults[..k];
      var fault := faults[k];
      for i := 0 to links.Length
        invariant links[..i] == LinksAt(base, faults[..k + 1], t)[..i]
        invariant links[i..] == LinksAt(base, faults[..k], t)[i..]
      {
        assert links[i] == links[i..][0] == Impaired(base[i], faults[..k], t);
        if fault.linkName != "" && links[i].name == fault.linkName {
          var link := links[i];
          if fault.forceDown {
            link := link.(up := false);
          }
          if fault.multiplier.Some? {
            link := link.(rate := link.rate * fault.multiplier.value);
          }
          if fault.survival.Some? {
            link := link.(survival := fault.survival.value);
          }
          links[i] := link;
        }
        assert LinksAt(base, faults[..k + 1], t)[i] == links[i];
      }
    }

    /** The first of the links of a leg that the policy authorises and that score best. */
    method ChooseRoute(src: string, dst: string) returns (chosen: Option<Link>)
      requires Valid()
      ensures chosen == Select(config.policy, links[..], src, dst)
    {
      chosen := None;
      var best := 0.0;
      for i := 0 to links.Length
        invariant chosen == Select(config.policy, links[..i], src, dst)
        invariant chosen.Some? ==> best == Score(chosen.value)
      {
        assert links[..i + 1] == links[..i] + [links[i]];
        var link := links[i];
        if link.src == src && link.dst == dst && link.up && (link.trusted || config.policy.allowUntrusted)
           && !(link.survival < config.policy.minimumSurvival)
        {
          var bonus := if link.kind == Optical then 1.08 else 1.0;
          var score := link.rate * link.survival * bonus;
          if chosen.None? || score > best {
            chosen, best := Some(link), score;
          }
        }
      }
      assert links[..] == links[..links.Length];
    }

    /** Chooses the route of a leg and counts a change or failover against the previous one. */
    method SelectLeg(src: string, dst: string, previous: Option<string>) returns (chosen: Option<Link>)
      requires Valid()
      modifies this`routeChanges, this`failovers
      ensures chosen == Select(config.policy, links[..], src, dst)
      ensures routeChanges == old(routeChanges) + Changes(previous, chosen)
      ensures failovers == old(failovers) + Failovers(previous, chosen)
    {
      chosen := ChooseRoute(src, dst);
      if chosen.None? {
        if previous.Some? {
          routeChanges := routeChanges + 1;
        }
      } else if previous.None? || chosen.value.name != previous.value {
        routeChanges := routeChanges + 1;
        if previous.Some? {
          failovers := failovers + 1;
        }
      }
    }

    /** One time slice: faults, routes, forwarding from the relay, then upload into it. */
    method Slice(t: int)
      requires Valid()
      modifies this, links
      ensures Valid() && State() == NextTrack(config, base, old(State()), t) && completedAt == old(completedAt)
    {
      hide Select, Step;
      var down := ApplyFaults(t);
      var ab, bc: Option<Link> := None, None;
      if "A" !in down && "B" !in down {
        ab := SelectLeg("A", "B", lastAb);
      }
      if "B" !in down && "C" !in down {
        bc := SelectLeg("B", "C", lastBc);
      }
      lastAb := if ab.Some? then Some(ab.value.name) else None;
      lastBc := if bc.Some? then Some(bc.value.name) else None;
      Move(ab, bc);
    }

    /** The relay forwards from what it held, then the source uploads. */
    method Move(ab: Option<Link>, bc: Option<Link>)
      modifies this`source, this`relay, this`dest, this`maxRelay, this`linkBytes
      ensures State().transfer == Step(old(State().transfer), ab, bc, config.dt)
    {
      hide StepCapacity, Credit;
      if bc.Some? && relay > 0.0 {
        var capacity := CapacityOf(bc.value, config.dt);
        var forwarded := if relay < capacity then relay else capacity;
        relay, dest := relay - forwarded, dest + forwarded;
        CreditLink(bc.value.name, forwarded);
      }
      if ab.Some? && source > 0.0 {
        var capacity := CapacityOf(ab.value, config.dt);
        var moved := if source < capacity then source else capacity;
        source, relay := source - moved, relay + moved;
        CreditLink(ab.value.name, moved);
      }
      if relay > maxRelay {
        maxRelay := relay;
      }
    }

    static method CapacityOf(link: Link, dt: int) returns (r: real)
      ensures r == StepCapacity(link, dt)
    {
      return link.rate * 1000000.0 / 8.0 * dt as real;
    }

    method CreditLink(name: string, amount: real)
      modifies this`linkBytes
      ensures linkBytes == Credit(old(linkBytes), name, amount)
    {
      var before := 0.0;
      if name in linkBytes {
        before := linkBytes[name];
      }
      linkBytes := linkBytes[name := before + amount];
    }

    /** Reports the first step at which the payload has arrived, or the timeout; the clock starts at zero. */
    method Run(horizon: int) returns (r: Result<Simulated, SimulationError>)
      requires Valid()
      modifies this, links
      ensures horizon <= 0 ==> r == Failure(BadHorizon) && State() == old(State()) && completedAt == old(completedAt)
      ensures horizon > 0 ==>
                && r.Success?
                && Reports(config, base, old(State()), old(completedAt), Steps(horizon, config.dt), r.value, State())
      ensures horizon > 0 ==> completedAt == r.value.completedAt
    {
      if horizon <= 0 {
        return Failure(BadHorizon);
      }
      hide TrackAfter;
      var k, t, done := Advance(horizon);
      if done {
        dest, completedAt := config.payload as real, Some(t + config.dt);
      }
      return Success(Simulated(RoundHalfEven(dest), completedAt, RoundHalfEven(maxRelay), routeChanges, failovers,
                               map name | name in linkBytes :: RoundHalfEven(linkBytes[name])));
    }

    /** Steps from time zero until the payload has arrived or the horizon is reached; t is the time of the last step
        when the payload arrived. */
    method Advance(horizon: int) returns (ghost k: nat, t: int, done: bool)
      requires Valid() && horizon > 0
      modifies this, links
      ensures Valid() && k <= Steps(horizon, config.dt) && State() == TrackAfter(config, base, old(State()), k)
              && completedAt == old(completedAt)
      ensures done ==> CompletesAt(config, base, old(State()), k) && t + config.dt == k * config.dt
      ensures !done ==> k == Steps(horizon, config.dt) && NotBy(config, base, old(State()), k)
    {
      hide NextTrack, Steps;
      k, t := 0, 0;
      StepsIff(horizon, config.dt, 0);
      while t < horizon
        invariant k <= Steps(horizon, config.dt) && t == k * config.dt && Valid() && completedAt == old(completedAt)
        invariant State() == TrackAfter(config, base, old(State()), k) && NotBy(config, base, old(State()), k)
        decreases horizon - t
      {
        StepsIff(horizon, config.dt, k);
        Slice(t);
        k := k + 1;
        if dest >= config.payload as real - 0.5 {
          return k, t, true;
        }
        t := t + config.dt;
      }
      StepsIff(horizon, config.dt, k);
      return k, t, false;
    }
  }

  function RoundedBytes(bytes: map<string, real>): map<string, int> {
    map name | name in bytes :: RoundHalfEven(bytes[name])
  }

  /** The checks made when a simulation is created. */
  method NewSimulation(config: Config) returns (r: Result<CisnetSimulation, SimulationError>)
    ensures config.payload <= 0 ==> r == Failure(BadPayload)
    ensures config.payload > 0 && config.dt <= 0 ==> r == Failure(BadStep)
    ensures config.payload > 0 && config.dt > 0 ==>
              r.Success? && r.value.Valid() && r.value.State() == NewTrack(config.payload)
              && r.value.completedAt == None && r.value.config == config
  {
    if config.payload <= 0 {
      return Failure(BadPayload);
    }
    if config.dt <= 0 {
      return Failure(BadStep);
    }
    var simulation := new CisnetSimulation(config);
    return Success(simulation);
  }

  /** The payload has not arrived at any of the first n steps. */
  ghost predicate NotBy(c: Config, base: seq<Link>, start: Track, n: nat) {
    forall j :: 1 <= j <= n ==> !Arrived(c, TrackAfter(c, base, start, j).transfer)
  }

  lemma AfterStart(c: Config, base: seq<Link>)
    ensures After(c, base, 0) == Start(c.payload)
  {
  }

  lemma AfterNext(c: Config, base: seq<Link>, k: nat)
    ensures After(c, base, k + 1) ==
            Step(After(c, base, k), Route(c, base, k * c.dt, "A", "B"), Route(c, base, k * c.dt, "B", "C"), c.dt)
  {
    hide Step, Route;
  }

  ghost predicate CompletesAt(c: Config, base: seq<Link>, start: Track, k: nat) {
    k >= 1 && Arrived(c, TrackAfter(c, base, start, k).transfer) && NotBy(c, base, start, k - 1)
  }

  /** The report of a final state. */
  function ReportOf(w: Track, completedAt: Option<int>): Simulated {
    Simulated(RoundHalfEven(w.transfer.dest), completedAt, RoundHalfEven(w.transfer.maxRelay), w.routeChanges,
              w.failovers,
              RoundedBytes(w.transfer.linkBytes))
  }

  /** A run that completes stops at the first step by which the payload has arrived, with the received amount set to
      the payload; any other run makes all its steps and leaves an earlier completion time as it was. */
  ghost predicate Reports(c: Config, base: seq<Link>, start: Track, earlier: Option<int>, n: nat, r: Simulated,
                          end: Track) {
    || (exists k: nat :: && CompletesAt(c, base, start, k) && k <= n
                         && CompletedReport(c, TrackAfter(c, base, start, k), k, r, end))
    || (NotBy(c, base, start, n) && end == TrackAfter(c, base, start, n) && r == ReportOf(end, earlier))
  }

  predicate CompletedReport(c: Config, w: Track, k: nat, r: Simulated, end: Track) {
    end == Completed(c, w) && r == ReportOf(end, Some(k * c.dt))
  }

  /** Completion sets the received amount to the payload. */
  function Completed(c: Config, w: Track): Track {
    w.(transfer := w.transfer.(dest := c.payload as real))
  }

  lemma DownNodesGrow(faults: seq<Fault>, f: Fault, t: int)
    ensures DownNodes(faults + [f], t) ==
            DownNodes(faults, t) + if Active(f, t) && f.nodeName != "" then {f.nodeName} else {}
  {
    var all := faults + [f];
    assert all[|faults|] == f;
    forall name | name in DownNodes(faults, t) ensures name in DownNodes(all, t) {
      var i :| 0 <= i < |faults| && Active(faults[i], t) && faults[i].nodeName != "" && faults[i].nodeName == name;
      assert all[i] == faults[i];
    }
  }

  /** The first run of a simulation whose legs always offer at least b bytes per step, over a long enough horizon,
      completes within one step more than the payload needs at that rate. */
  lemma RunCompletes(c: Config, base: seq<Link>, b: real, n: nat, steps: nat, r: Simulated, end: Track)
    requires c.payload > 0 && c.dt > 0 && b > 0.0 && AlwaysOffers(c, base, b, n + 1) && n + 1 <= steps
    requires Product(n as real, b) >= c.payload as real - 0.5
    requires Reports(c, base, NewTrack(c.payload), None, steps, r, end)
    ensures r.completedAt.Some? && r.completedAt.value <= (n + 1) * c.dt && r.received == c.payload
  {
    hide After, TrackAfter;
    CompletesInTime(c, base, b, n);
    TrackTransfer(c, base, n + 1);
    RoundInteger(c.payload);
    var start := NewTrack(c.payload);
    assert !NotBy(c, base, start, steps);
    var k: nat :| CompletesAt(c, base, start, k) && k <= steps
                  && CompletedReport(c, TrackAfter(c, base, start, k), k, r, end);
    assert k <= n + 1;
    NatProductMonotone(k, n + 1, c.dt);
  }

  lemma NatProductMonotone(k: nat, m: nat, dt: int)
    requires k <= m && dt > 0
    ensures k * dt <= m * dt
  {
    assert (m - k) * dt >= 0;
  }
}
