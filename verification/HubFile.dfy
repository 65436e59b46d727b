/** The hub file: both commands that rewrite it swap in a finished text or leave it alone. */
module HubFile {
  import opened Optional
  import opened HubText
  import opened HubRender
  import M = HubMigrate

  class Hub {
    const mk: Markers
    var text: string

    constructor (mk: Markers, text: string)
      ensures this.mk == mk && this.text == text
    {
      this.mk := mk;
      this.text := text;
    }

    /** Either every zone is rendered and the file swapped, or the file is untouched. */
    method RenderWrite(bodies: Zone -> string) returns (r: Result<(), Zone>)
      modifies this
      ensures var rendered := RenderAll(mk, old(text), ZONES, bodies);
        && (r.Ok? <==> rendered.Ok?)
        && (r.Ok? ==> text == rendered.value)
        && (r.Err? ==> text == old(text) && r.error == rendered.error)
    {
      var t := text;
      var n := 0;
      while n < |ZONES|
        invariant n <= |ZONES| && text == old(text)
        invariant RenderAll(mk, old(text), ZONES, bodies) == RenderAll(mk, t, ZONES[n..], bodies)
      {
        var z := ZONES[n];
        assert ZONES[n..][0] == z && ZONES[n..][1..] == ZONES[n + 1..];
        var i, j := Find(t, mk.begin(z), 0), Find(t, mk.end(z), 0);
        if !(IsOptional(z) && i.None? && j.None?) {
          var replaced := ReplaceZone(mk, t, z, bodies(z));
          if replaced.Err? {
            return Err(z);
          }
          t := replaced.value;
        }
        n := n + 1;
      }
      assert ZONES[n..] == [];
      text := t;
      r := Ok(());
    }

    /** Every anchor is verified before anything is rewritten; a refusal leaves the file untouched. */
    method Migrate(given: seq<M.Anchor>, prose: M.Prose) returns (r: M.Outcome)
      modifies this
      ensures r == M.Migrate(mk, old(text), given, prose)
      ensures text == if r.Migrated? then r.text else old(text)
    {
      var t := text;
      var toWire := M.Unwired(mk, t, ZONES);
      if toWire == [] {
        return M.NoOp;
      }
      var anchors := M.For(given, toWire);
      var spans, missing := [], [];
      for n := 0 to |anchors|
        invariant text == old(text) == t
        invariant spans == M.Spans(t, anchors[..n]) && missing == M.Missing(t, anchors[..n])
      {
        assert anchors[..n + 1][..n] == anchors[..n];
        var s := M.SpanOf(t, anchors[n]);
        if s.None? {
          missing := missing + [anchors[n].zone];
        } else {
          spans := spans + [s.value];
        }
      }
      assert anchors[..|anchors|] == anchors;
      if missing != [] {
        return M.AnchorsMissing(missing);
      }
      if M.Overlapping(M.SortUp(spans)) {
        return M.SpansOverlap;
      }
      var down := M.SortDown(spans);
      for n := 0 to |down|
        invariant text == old(text)
        invariant M.SpliceAll(old(text), down, mk.Block) == M.SpliceAll(t, down[n..], mk.Block)
      {
        assert down[n..][0] == down[n] && down[n..][1..] == down[n + 1..];
        t := M.Splice(t, down[n], mk.Block);
      }
      assert down[|down|..] == [];
      t := M.AppendSections(mk, t, M.Unanchored(toWire, anchors), |toWire| == |ZONES|, prose);
      t := M.AppendProtocol(t, prose);
      text := t;
      r := M.Migrated(t);
    }
  }
}
