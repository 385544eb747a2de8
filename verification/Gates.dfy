/** What decides before a probe's fragment runs: its tools first, then its privilege. */
module Gates {
  import opened Basics
  import opened Text
  import opened Protocol
  import opened Model
  import opened Script
  import opened Collection
  import Bags

  /** The tools of a list that the host lacks, in order. */
  function Lacking(tools: seq<string>, host: Host): seq<string> {
    Bags.Filter((t: string) => t !in host.tools, tools)
  }

  /** Each text behind a space. */
  function Spaced(texts: seq<string>): string {
    if texts == [] then "" else Spaced(texts[..|texts| - 1]) + (" " + texts[|texts| - 1])
  }

  lemma {:induction false} MissingIsSpaced(tools: seq<string>, host: Host)
    ensures MissingText(tools, host) == Spaced(Lacking(tools, host))
    ensures MissingText(tools, host) == "" <==> Lacking(tools, host) == []
  {
    if tools != [] {
      var init, last := tools[..|tools| - 1], tools[|tools| - 1];
      MissingIsSpaced(init, host);
      if last !in host.tools {
        assert (Lacking(init, host) + [last])[..|Lacking(init, host)|] == Lacking(init, host);
      } else {
        assert Lacking(init, host) + [] == Lacking(init, host);
      }
    }
  }

  /**
   The section of a probe: unavailable with the missing tools if there are any, else
   unavailable for want of root if it needs that, else what its fragment's output
   says, marked partial if root would have shown more.
   */
  lemma GatesDecide(m: Markers, p: Probe, host: Host)
    ensures var s, own, lacking := Direct(m, p, host), OwnSection(m, p, host), Lacking(p.requiredTools, host);
      var root := host.root == Some(true);
      if lacking != [] then
        s == Section(0, "", Some("missing required tool(s):" + Spaced(lacking)), None, [])
      else if p.privilege.RootRequired? && !root then
        s == Section(0, "", Some("root access required; rerun with --sudo"), None, [])
      else
        && s == own.(partial := s.partial)
        && if p.privilege.RootRecommended? && !root then
             var reason := "root access unavailable; " + "evidence may omit other users";
             s.partial == Some(if own.partial.Some? then reason + "; " + own.partial.value else reason)
           else s.partial == own.partial
  {
    MissingIsSpaced(p.requiredTools, host);
  }
}
