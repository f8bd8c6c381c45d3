/** The header check of `DiffContext::diff_response` (requester/src/diff.rs):
    every header of the first response, one value at a time, against the
    first value of that name in the second response. */
module HeaderScan {
  import opened Wrappers
  import opened Text
  import opened Http

  /** What one header of the first response adds to the report. A header the
      second response lacks is written without a line break, so consecutive
      missing headers run together on one line. */
  function MismatchLine(name: string, v: string, h2: seq<(string, string)>): string {
    match ResponseHeader(h2, name)
    case None => "header " + name + " mismatch: '" + DebugValue(v) + "' / None"
    case Some(v2) =>
      if v != v2 then "header " + name + " mismatch: '" + DebugValue(v) + "' / '" + DebugValue(v2) + "'\n"
      else ""
  }

  /** Whether the scan passes over a header: its name is one of `skip_headers`. */
  predicate Skipped(name: string, skip: seq<string>) {
    name in skip
  }

  /** What one header of the first response adds to the report, skipping included. */
  function Contribution(h: (string, string), h2: seq<(string, string)>, skip: seq<string>): string {
    if Skipped(h.0, skip) then "" else MismatchLine(h.0, h.1, h2)
  }

  /** The report of the scan over the first `|h1|` headers. */
  function MismatchText(h1: seq<(string, string)>, h2: seq<(string, string)>, skip: seq<string>): string
    decreases |h1|
  {
    if h1 == [] then ""
    else MismatchText(h1[..|h1| - 1], h2, skip) + Contribution(h1[|h1| - 1], h2, skip)
  }

  /** A header of the first response that the scan accepts. */
  predicate Matches(h: (string, string), h2: seq<(string, string)>, skip: seq<string>) {
    Skipped(h.0, skip) || ResponseHeader(h2, h.0) == Some(h.1)
  }

  /** The `for_each` over the first response's headers, writing into a buffer. */
  method ScanHeaders(h1: seq<(string, string)>, h2: seq<(string, string)>, skip: seq<string>) returns (buf: string)
    ensures buf == MismatchText(h1, h2, skip)
  {
    buf := "";
    var i := 0;
    while i < |h1|
      invariant 0 <= i <= |h1|
      invariant buf == MismatchText(h1[..i], h2, skip)
    {
      var (k, v) := h1[i];
      assert h1[..i + 1][..i] == h1[..i];
      if k !in skip {
        buf := buf + MismatchLine(k, v, h2);
      }
      i := i + 1;
    }
    assert h1[..i] == h1;
  }

  lemma ContributionEmptyIff(h: (string, string), h2: seq<(string, string)>, skip: seq<string>)
    ensures Contribution(h, h2, skip) == "" <==> Matches(h, h2, skip)
  {
    if !Matches(h, h2, skip) {
      var line := MismatchLine(h.0, h.1, h2);
      assert line[0] == 'h';
    }
  }

  lemma NoNewlineAppend(a: string, b: string)
    ensures NoNewline(a + b) <==> NoNewline(a) && NoNewline(b)
  {
    assert forall i :: 0 <= i < |a| ==> (a + b)[i] == a[i];
    assert forall i :: 0 <= i < |b| ==> (a + b)[|a| + i] == b[i];
  }

  lemma ContributionNoNewlineIff(h: (string, string), h2: seq<(string, string)>, skip: seq<string>)
    requires NoNewline(h.0)
    ensures NoNewline(Contribution(h, h2, skip)) <==> Matches(h, h2, skip) || ResponseHeader(h2, h.0).None?
  {
    if !Skipped(h.0, skip) {
      match ResponseHeader(h2, h.0)
      case None =>
        var a := "header " + h.0;
        NoNewlineAppend("header ", h.0);
        NoNewlineAppend(a, " mismatch: '");
        NoNewlineAppend(a + " mismatch: '", DebugValue(h.1));
        NoNewlineAppend(a + " mismatch: '" + DebugValue(h.1), "' / None");
      case Some(v2) =>
        if h.1 != v2 {
          var line := MismatchLine(h.0, h.1, h2);
          assert line[|line| - 1] == '\n';
        }
    }
  }

  /** The scan reports nothing exactly when every header of the first
      response that is not skipped carries the first value the second
      response has under its name. */
  lemma {:induction false} ScanEmptyIffAllMatch(h1: seq<(string, string)>, h2: seq<(string, string)>, skip: seq<string>)
    ensures MismatchText(h1, h2, skip) == "" <==> forall i :: 0 <= i < |h1| ==> Matches(h1[i], h2, skip)
    decreases |h1|
  {
    if h1 != [] {
      var init := h1[..|h1| - 1];
      ScanEmptyIffAllMatch(init, h2, skip);
      ContributionEmptyIff(h1[|h1| - 1], h2, skip);
      assert forall i :: 0 <= i < |init| ==> init[i] == h1[i];
    }
  }

  /** Only the first response is scanned: the second matters only through
      its first value under each name the first response carries, so a header
      present only in the second response is never reported. */
  lemma {:induction false} ScanSeesOnlyFirstResponseNames(h1: seq<(string, string)>, h2: seq<(string, string)>, h2': seq<(string, string)>, skip: seq<string>)
    requires forall i :: 0 <= i < |h1| ==> ResponseHeader(h2, h1[i].0) == ResponseHeader(h2', h1[i].0)
    ensures MismatchText(h1, h2, skip) == MismatchText(h1, h2', skip)
    decreases |h1|
  {
    if h1 != [] {
      var init := h1[..|h1| - 1];
      assert forall i :: 0 <= i < |init| ==> init[i] == h1[i];
      ScanSeesOnlyFirstResponseNames(init, h2, h2', skip);
    }
  }

  /** The headers of `hs` whose names are not skipped, in order. */
  function Unskipped(hs: seq<(string, string)>, skip: seq<string>): (r: seq<(string, string)>)
    ensures forall h :: h in r <==> h in hs && !Skipped(h.0, skip)
    decreases |hs|
  {
    if hs == [] then []
    else
      var last := hs[|hs| - 1];
      Unskipped(hs[..|hs| - 1], skip) + (if Skipped(last.0, skip) then [] else [last])
  }

  /** An empty `skip_headers` list. */
  const NoSkip: seq<string> := []

  lemma UnskippedContribution(h: (string, string), h2: seq<(string, string)>, skip: seq<string>)
    requires !Skipped(h.0, skip)
    ensures Contribution(h, h2, NoSkip) == Contribution(h, h2, skip)
  {
  }

  /** Skipping a header is the same as removing it from the first response. */
  lemma {:induction false} SkipIsRemoval(h1: seq<(string, string)>, h2: seq<(string, string)>, skip: seq<string>)
    ensures MismatchText(h1, h2, skip) == MismatchText(Unskipped(h1, skip), h2, NoSkip)
    decreases |h1|
  {
    if h1 != [] {
      var init := h1[..|h1| - 1];
      var last := h1[|h1| - 1];
      SkipIsRemoval(init, h2, skip);
      var u := Unskipped(init, skip);
      if Skipped(last.0, skip) {
        assert u + [] == u;
        assert Unskipped(h1, skip) == u;
        assert Contribution(last, h2, skip) == "";
        assert MismatchText(h1, h2, skip) == MismatchText(init, h2, skip) + "";
      } else {
        var u' := u + [last];
        assert Unskipped(h1, skip) == u';
        assert u'[..|u'| - 1] == u;
        UnskippedContribution(last, h2, skip);
      }
    }
  }

  /** Lines end in a line break only for headers whose values differ: the
      report has no line break exactly when every reported header is missing
      from the second response. */
  lemma {:induction false} OnlyValueMismatchesEndLines(h1: seq<(string, string)>, h2: seq<(string, string)>, skip: seq<string>)
    requires forall i :: 0 <= i < |h1| ==> NoNewline(h1[i].0)
    ensures NoNewline(MismatchText(h1, h2, skip)) <==>
              forall i :: 0 <= i < |h1| ==> Matches(h1[i], h2, skip) || ResponseHeader(h2, h1[i].0).None?
    decreases |h1|
  {
    if h1 != [] {
      var init := h1[..|h1| - 1];
      var last := h1[|h1| - 1];
      assert forall i :: 0 <= i < |init| ==> init[i] == h1[i];
      OnlyValueMismatchesEndLines(init, h2, skip);
      NoNewlineAppend(MismatchText(init, h2, skip), Contribution(last, h2, skip));
      ContributionNoNewlineIff(last, h2, skip);
    }
  }
}
