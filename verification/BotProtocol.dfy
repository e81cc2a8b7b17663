/** What one bot does with the two topology messages, on the level of names:
    a view is the bot's list with every pointer replaced by the name it points at. */
module BotProtocol {
  import opened Wrappers
  import opened Forest

  type Link = Node<string, ()>
  type View = seq<Link>

  /** `Nlinked` is the line "n <bot> <next> ...", `Unlinked` the line "un <bot> ...". */
  datatype Msg = Nlinked(bot: string, next: string) | Unlinked(bot: string)

  const HANDLEN := 32

  /** Bytes 33..126 are unproblematic; a plain `char` is signed, so 128..255 compare below 32. */
  predicate GoodChar(c: char) {
    32 <= c as int < 128 && c as int != 127
  }

  predicate ValidName(name: string) {
    name != "" && |name| <= HANDLEN && forall k :: 0 <= k < |name| ==> GoodChar(name[k])
  }

  ghost function Lookup(v: View, who: string): Option<Link> {
    if v == [] then None
    else if v[|v| - 1].id == who then Some(v[|v| - 1])
    else Lookup(v[..|v| - 1], who)
  }

  /** The neighbour that leads to `who`, when that neighbour is a linked bot. */
  ghost function NextBot(v: View, links: set<string>, who: string): Option<string> {
    match Lookup(v, who)
    case None => None
    case Some(t) => if t.via in links then Some(t.via) else None
  }

  /** The guards under which an "n" line from neighbour `from` is believed. */
  ghost predicate Accepts(me: string, v: View, links: set<string>, from: string, leaf: bool, newbot: string, next: string) {
    && next != ""
    && newbot !in Ids(v) && newbot != me
    && (forall k :: 0 <= k < |newbot| ==> GoodChar(newbot[k])) && |newbot| <= HANDLEN
    && NextBot(v, links, next) == Some(from)
    && !leaf
  }

  /** `Forwarded`: state changed and the line passed on; `Ignored`: nothing happens;
      `Rejected`: the neighbour is cut off or reported. */
  datatype Outcome = Forwarded(view: View) | Ignored | Rejected

  ghost function Handle(me: string, v: View, links: set<string>, from: string, m: Msg): Outcome {
    match m
    case Nlinked(newbot, next) =>
      if Accepts(me, v, links, from, false, newbot, next)
      then Forwarded(v + [Node(newbot, next, from, ())])
      else Rejected
    case Unlinked(bot) =>
      match NextBot(v, links, bot)
      case None => Ignored
      case Some(p) => if p == from then Forwarded(Prune(v, bot)) else Rejected
  }

  /** The "n" lines by which a bot describes its whole list to a new neighbour. */
  ghost function Dump(v: View): seq<Msg> {
    seq(|v|, i requires 0 <= i < |v| => Nlinked(v[i].id, v[i].uplink))
  }

  lemma {:induction false} LookupFinds(me: string, v: View, t: Link)
    requires Linked(me, v) && t in v
    ensures Lookup(v, t.id) == Some(t)
  {
    InSnoc(v, t);
    var p, z := v[..|v| - 1], v[|v| - 1];
    if t in p {
      assert t.id in Ids(p);
      LookupFinds(me, p, t);
    }
  }

  lemma {:induction false} LookupSound(v: View, who: string)
    ensures match Lookup(v, who)
            case None => who !in Ids(v)
            case Some(t) => t in v && t.id == who
  {
    if v != [] {
      LookupSound(v[..|v| - 1], who);
      IdsSnoc(v);
      assert v == v[..|v| - 1] + [v[|v| - 1]];
    }
  }

  lemma NextBotIs(me: string, v: View, links: set<string>, t: Link)
    requires Linked(me, v) && t in v && t.via in links
    ensures NextBot(v, links, t.id) == Some(t.via)
  {
    LookupFinds(me, v, t);
  }
}
