/**
 Tags inherited along a menu graph: each menu takes its own answer or its parent's. The
 graph comes from an export, so parents may be missing and may form cycles.
 */
module TagIndex {
  import opened Basics

  type Gid = string

  /** `path` is the menu's path cut at its separators, `dp` the datapoint type it belongs to, `parent` may be absent. */
  datatype Group = Group(path: seq<string>, parent: Gid, dp: Option<string>)

  /** The export's tables: menus, the circuit each menu sets, and the tags of circuits and system menus. */
  datatype Menus = Menus(groups: map<Gid, Group>, mapping: map<Gid, string>,
                         circuitTags: map<string, string>, systemTags: map<string, string>)

  datatype Kind = SystemFlag | Circuit

  const UNTAGGED := ""

  /** A menu's own answer: None to inherit, "" to have none and stop inheritance. */
  function Own(m: Menus, kind: Kind, g: Gid): Option<string>
    requires g in m.groups
  {
    match kind
    case SystemFlag =>
      var parts := m.groups[g].path;
      if |parts| >= 3 && parts[0] == "ecnsysEventTypeGroup" then
        Some(if parts[2] in m.systemTags then m.systemTags[parts[2]] else UNTAGGED)
      else None
    case Circuit =>
      if g !in m.mapping then None
      else if m.mapping[g] in m.circuitTags && m.circuitTags[m.mapping[g]] != "" then
        Some("circuit=" + m.circuitTags[m.mapping[g]])
      else Some(UNTAGGED)
  }

  /** What a menu says of itself: the tag of the system menu its path names, or of the circuit it sets. */
  ghost predicate Says(m: Menus, kind: Kind, g: Gid, tag: string)
    requires g in m.groups
  {
    match kind
    case SystemFlag =>
      exists second, name, rest :: m.groups[g].path == ["ecnsysEventTypeGroup", second, name] + rest
        && tag == (if name in m.systemTags then m.systemTags[name] else "")
    case Circuit =>
      g in m.mapping &&
      var own := if m.mapping[g] in m.circuitTags then m.circuitTags[m.mapping[g]] else "";
      tag == if own == "" then "" else "circuit=" + own
  }

  /** A menu answers exactly what it says, the empty tag included; silent, it inherits. */
  lemma AnswersAsSaid(m: Menus, kind: Kind, g: Gid, tag: string)
    requires g in m.groups
    ensures Own(m, kind, g) == Some(tag) <==> Says(m, kind, g, tag)
  {
    if kind == SystemFlag {
      var path := m.groups[g].path;
      if |path| >= 3 && path[0] == "ecnsysEventTypeGroup" {
        assert path == ["ecnsysEventTypeGroup", path[1], path[2]] + path[3..];
      }
    }
  }

  // --- the meaning ------------------------------------------------------------------------------------

  /** The menu `n` steps up from `g` is the first with an answer of its own, and that answer is `a`. */
  predicate FirstAnswer(m: Menus, kind: Kind, g: Gid, n: nat, a: string)
    decreases n
  {
    && g in m.groups
    && if n == 0 then Own(m, kind, g) == Some(a)
       else Own(m, kind, g).None? && FirstAnswer(m, kind, m.groups[g].parent, n - 1, a)
  }

  /** The inherited tag: the first own answer along the parent chain, else none. */
  ghost predicate Inherits(m: Menus, kind: Kind, g: Gid, tag: string) {
    || (exists n: nat :: FirstAnswer(m, kind, g, n, tag))
    || (tag == UNTAGGED && forall n: nat, a :: !FirstAnswer(m, kind, g, n, a))
  }

  lemma {:induction false} OneFirstAnswer(m: Menus, kind: Kind, g: Gid, n: nat, a: string, k: nat, b: string)
    requires FirstAnswer(m, kind, g, n, a) && FirstAnswer(m, kind, g, k, b)
    ensures n == k && a == b
    decreases n
  {
    if n > 0 && k > 0 {
      OneFirstAnswer(m, kind, m.groups[g].parent, n - 1, a, k - 1, b);
    }
  }

  /** Every menu inherits exactly one tag. */
  lemma OneTag(m: Menus, kind: Kind, g: Gid, s: string, t: string)
    requires Inherits(m, kind, g, s) && Inherits(m, kind, g, t)
    ensures s == t
  {
    if n: nat :| FirstAnswer(m, kind, g, n, s) {
      if k: nat :| FirstAnswer(m, kind, g, k, t) {
        OneFirstAnswer(m, kind, g, n, s, k, t);
      }
    }
  }

  /** `k` steps up from `from`, through menus without an answer of their own, is `to`. */
  predicate Leads(m: Menus, kind: Kind, from: Gid, to: Gid, k: nat)
    decreases k
  {
    if k == 0 then from == to
    else from in m.groups && Own(m, kind, from).None? && Leads(m, kind, m.groups[from].parent, to, k - 1)
  }

  lemma {:induction false} AnswerThrough(m: Menus, kind: Kind, from: Gid, to: Gid, k: nat, n: nat, a: string)
    requires Leads(m, kind, from, to, k) && FirstAnswer(m, kind, to, n, a)
    ensures FirstAnswer(m, kind, from, n + k, a)
    decreases k
  {
    if k > 0 {
      AnswerThrough(m, kind, m.groups[from].parent, to, k - 1, n, a);
    }
  }

  lemma {:induction false} LeadsOn(m: Menus, kind: Kind, from: Gid, to: Gid, k: nat)
    requires Leads(m, kind, from, to, k) && to in m.groups && Own(m, kind, to).None?
    ensures Leads(m, kind, from, m.groups[to].parent, k + 1)
    decreases k
  {
    if k > 0 {
      LeadsOn(m, kind, m.groups[from].parent, to, k - 1);
    }
  }

  /** On a cycle of menus without answers there is no answer at all. */
  lemma CycleHasNone(m: Menus, kind: Kind, g: Gid, k: nat)
    requires k > 0 && Leads(m, kind, g, g, k)
    ensures Inherits(m, kind, g, UNTAGGED)
  {
    forall n: nat, a
      ensures !FirstAnswer(m, kind, g, n, a)
    {
      if FirstAnswer(m, kind, g, n, a) {
        AnswerThrough(m, kind, g, g, k, n, a);
        OneFirstAnswer(m, kind, g, n, a, n + k, a);
      }
    }
  }

  /** A menu without an answer inherits what its parent does. */
  lemma InheritsFromParent(m: Menus, kind: Kind, g: Gid, tag: string)
    requires g in m.groups && Own(m, kind, g).None? && Inherits(m, kind, m.groups[g].parent, tag)
    ensures Inherits(m, kind, g, tag)
  {
    var up := m.groups[g].parent;
    if n: nat :| FirstAnswer(m, kind, up, n, tag) {
      assert FirstAnswer(m, kind, g, n + 1, tag);
    } else {
      forall n: nat, a
        ensures !FirstAnswer(m, kind, g, n, a)
      {
        if n > 0 { assert !FirstAnswer(m, kind, up, n - 1, a); }
      }
    }
  }

  // --- the memoised resolver -----------------------------------------------------------------------------

  /** Where the chain has been: each menu leads to the present one in one or more steps. */
  ghost predicate Trail(m: Menus, kind: Kind, seen: seq<Gid>, g: Gid) {
    forall x :: x in seen ==> x in m.groups && exists k: nat :: k > 0 && Leads(m, kind, x, g, k)
  }

  lemma TrailGrows(m: Menus, kind: Kind, seen: seq<Gid>, g: Gid)
    requires Trail(m, kind, seen, g) && g in m.groups && Own(m, kind, g).None?
    ensures Trail(m, kind, seen + [g], m.groups[g].parent)
  {
    var up := m.groups[g].parent;
    forall x | x in seen + [g]
      ensures x in m.groups && exists k: nat :: k > 0 && Leads(m, kind, x, up, k)
    {
      if x in seen {
        var k: nat :| k > 0 && Leads(m, kind, x, g, k);
        LeadsOn(m, kind, x, g, k);
      } else {
        assert Leads(m, kind, g, up, 1) by { assert Leads(m, kind, up, up, 0); }
      }
    }
  }

  ghost function Visited(seen: seq<Gid>): set<Gid> {
    set x | x in seen
  }

  class TagResolver {
    const m: Menus
    const kind: Kind
    var memo: map<Gid, string>

    /** Every remembered tag is the inherited one. */
    ghost predicate Valid()
      reads this
    {
      forall g :: g in memo ==> g in m.groups && Inherits(m, kind, g, memo[g])
    }

    constructor (menus: Menus, k: Kind)
      ensures Valid() && m == menus && kind == k && memo == map[]
    {
      m, kind, memo := menus, k, map[];
    }

    /** The inherited tag, whatever was asked before: the memo only grows, and only by right answers. */
    method Resolve(g: Gid, seen: seq<Gid>) returns (tag: string)
      requires Valid() && Trail(m, kind, seen, g)
      modifies `memo
      ensures Valid() && Inherits(m, kind, g, tag)
      ensures forall x :: x in old(memo) ==> x in memo && memo[x] == old(memo[x])
      decreases m.groups.Keys - Visited(seen)
    {
      if g in memo {
        return memo[g];
      }
      if g !in m.groups || g in seen {
        if g in seen {
          var k: nat :| k > 0 && Leads(m, kind, g, g, k);
          CycleHasNone(m, kind, g, k);
        }
        return UNTAGGED;
      }
      var own := Own(m, kind, g);
      if own.Some? {
        tag := own.value;
        assert FirstAnswer(m, kind, g, 0, tag);
      } else {
        TrailGrows(m, kind, seen, g);
        assert Visited(seen + [g]) == Visited(seen) + {g};
        tag := Resolve(m.groups[g].parent, seen + [g]);
        InheritsFromParent(m, kind, g, tag);
      }
      memo := memo[g := tag];
    }
  }

  // --- the index of tags ------------------------------------------------------------------------------------

  /** An event type hung on a menu, in the order the links are walked. */
  datatype Link = Link(event: string, menu: Gid)

  datatype Owner = Owner(dp: string, event: string)

  function DpOf(m: Menus, g: Gid): Option<string> {
    if g in m.groups && m.groups[g].dp.Some? && m.groups[g].dp.value != "" then m.groups[g].dp else None
  }

  function OwnerOf(m: Menus, link: Link): Option<Owner> {
    match DpOf(m, link.menu)
    case None => None
    case Some(dp) => Some(Owner(dp, link.event))
  }

  ghost predicate Owned(m: Menus, links: seq<Link>, o: Owner) {
    exists l :: l in links && OwnerOf(m, l) == Some(o)
  }

  /** `t` is a tag of the event on the device: some menu of the device shows the event and inherits `t`. */
  ghost predicate Tagged(m: Menus, links: seq<Link>, o: Owner, t: string) {
    t != UNTAGGED && exists l, kind :: l in links && OwnerOf(m, l) == Some(o) && Inherits(m, kind, l.menu, t)
  }

  ghost predicate IsTagIndex(m: Menus, links: seq<Link>, index: map<Owner, set<string>>) {
    && (forall o :: o in index <==> Owned(m, links, o))
    && (forall o, t :: o in index ==> (t in index[o] <==> Tagged(m, links, o, t)))
  }

  function Shown(tag: string): set<string> {
    if tag == UNTAGGED then {} else {tag}
  }

  lemma OneMoreLink(m: Menus, links: seq<Link>, link: Link, o: Owner, t: string)
    ensures Owned(m, links + [link], o) <==> Owned(m, links, o) || OwnerOf(m, link) == Some(o)
    ensures Tagged(m, links + [link], o, t) <==>
            || Tagged(m, links, o, t)
            || (t != UNTAGGED && OwnerOf(m, link) == Some(o)
                && (Inherits(m, SystemFlag, link.menu, t) || Inherits(m, Circuit, link.menu, t)))
  {
    var all := links + [link];
    assert forall l :: l in all <==> l in links || l == link;
    if l, kind :| l in all && OwnerOf(m, l) == Some(o) && Inherits(m, kind, l.menu, t) {
      assert kind == SystemFlag || kind == Circuit;
    }
  }

  /** A link to a menu of no device adds nothing. */
  lemma IndexSkips(m: Menus, links: seq<Link>, link: Link, index: map<Owner, set<string>>)
    requires IsTagIndex(m, links, index) && OwnerOf(m, link).None?
    ensures IsTagIndex(m, links + [link], index)
  {
    forall o: Owner, t: string
      ensures Owned(m, links + [link], o) <==> Owned(m, links, o)
      ensures Tagged(m, links + [link], o, t) <==> Tagged(m, links, o, t)
    {
      OneMoreLink(m, links, link, o, t);
    }
  }

  lemma IndexGrows(m: Menus, links: seq<Link>, link: Link, index: map<Owner, set<string>>, flag: string,
                   circuit: string)
    requires IsTagIndex(m, links, index) && OwnerOf(m, link).Some?
    requires Inherits(m, SystemFlag, link.menu, flag) && Inherits(m, Circuit, link.menu, circuit)
    ensures var o := OwnerOf(m, link).value;
            var found := if o in index then index[o] else {};
            IsTagIndex(m, links + [link], index[o := found + Shown(flag) + Shown(circuit)])
  {
    forall o: Owner, t: string
      ensures Owned(m, links + [link], o) <==> Owned(m, links, o) || OwnerOf(m, link) == Some(o)
      ensures Tagged(m, links + [link], o, t) <==>
              || Tagged(m, links, o, t)
              || (t != UNTAGGED && OwnerOf(m, link) == Some(o) && (t == flag || t == circuit))
    {
      OneMoreLink(m, links, link, o, t);
      if Inherits(m, SystemFlag, link.menu, t) { OneTag(m, SystemFlag, link.menu, t, flag); }
      if Inherits(m, Circuit, link.menu, t) { OneTag(m, Circuit, link.menu, t, circuit); }
    }
  }

  /** One pass over the links gives every event on every device exactly its tags. */
  method BuildTagIndex(m: Menus, links: seq<Link>) returns (index: map<Owner, set<string>>)
    ensures IsTagIndex(m, links, index)
  {
    var flags := new TagResolver(m, SystemFlag);
    var circuits := new TagResolver(m, Circuit);
    index := map[];
    for i := 0 to |links|
      invariant flags.Valid() && circuits.Valid()
      invariant flags.m == m && circuits.m == m && flags.kind == SystemFlag && circuits.kind == Circuit
      invariant flags != circuits && fresh(flags) && fresh(circuits)
      invariant IsTagIndex(m, links[..i], index)
    {
      assert links[..i + 1] == links[..i] + [links[i]];
      var owner := OwnerOf(m, links[i]);
      if owner.None? {
        IndexSkips(m, links[..i], links[i], index);
      } else {
        var flag := flags.Resolve(links[i].menu, []);
        var circuit := circuits.Resolve(links[i].menu, []);
        IndexGrows(m, links[..i], links[i], index, flag, circuit);
        var found := if owner.value in index then index[owner.value] else {};
        index := index[owner.value := found + Shown(flag) + Shown(circuit)];
      }
    }
    assert links[..|links|] == links;
  }
}
