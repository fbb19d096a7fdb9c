/** What a load hands over to the session. */
module Handover {
  import opened Words
  import opened Relocations
  import opened Image
  import opened Selection
  import opened World
  import Patching
  import Session

  function Replacements(rs: seq<Replaced>): (r: seq<Session.Replacement>)
    ensures |r| == |rs| && forall j :: 0 <= j < |r| ==> r[j] == Session.Replacement(rs[j].entry, rs[j].offset)
  {
    seq(|rs|, j requires 0 <= j < |rs| => Session.Replacement(rs[j].entry, rs[j].offset))
  }

  predicate StartsInside(link: Link, r: Replaced) {
    r.symbol < |link.obj.symbols| && link.obj.symbols[r.symbol].section < |link.obj.sections|
    && link.obj.symbols[r.symbol].value < link.obj.sections[link.obj.symbols[r.symbol].section].size
  }

  /** A load supplies what a prepared object needs: every redirect leads into the image. */
  lemma RedirectsInImage(p: Program, link: Link, placed: seq<nat>, slots: seq<nat>, rs: seq<Replaced>)
    requires Planned(link, placed, slots) && link.plan.imageSize <= TWO_32
    requires forall j :: 0 <= j < |rs| ==> ReplacedRight(p, link, rs[j]) && StartsInside(link, rs[j])
    ensures Session.OffsetsInside(Replacements(rs), link.plan.imageSize)
  {
    hide Planned, ReplacedRight;
    forall j | 0 <= j < |rs|
      ensures rs[j].offset < link.plan.imageSize
    {
      ReplacementInImage(p, link, placed, slots, rs[j]);
    }
  }

  predicate Replaceable(p: Program, k: nat, entry: nat) {
    k < |p.functions| && p.functions[k].address == entry && !TooSmall(p.functions[k])
  }

  /** So a session that replaces selected functions of such a program has its entries spaced. */
  lemma SelectedEntriesSpaced(p: Program, env: Env)
    requires Apart(p) && forall e :: e in env.entries ==> exists k: nat :: Replaceable(p, k, e)
    ensures EntriesSpaced(env)
  {
    forall e, f | e in env.entries && f in env.entries && e < f
      ensures e + Patching.WINDOW <= f
    {
      var k: nat :| Replaceable(p, k, e);
      var l: nat :| Replaceable(p, l, f);
    }
  }
}
