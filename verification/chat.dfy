/**
 * The two pieces of chat.py that compute rather than display: assembling
 * labelled knowledge-base excerpts into a capped context string, and the
 * canned-response lookup that short-circuits the model call.
 */
module Chat {
  import opened Wrappers
  import opened Text

  /** A retrieved chunk's metadata: field name to value. */
  type Metadata = map<string, string>

  const DefaultCap: int := 12000

  /** `m.get("file", m.get("source", "kb"))`. */
  function SourceLabel(m: Metadata): string
  {
    if "file" in m then m["file"] else if "source" in m then m["source"] else "kb"
  }

  /** One labelled excerpt. */
  function Segment(d: string, m: Metadata): string
  {
    "\n---\nSource: " + SourceLabel(m) + "\n---\n" + d
  }

  /** The segments of `zip(documents, metadatas)`, which stops at the shorter list. */
  function Segments(documents: seq<string>, metadatas: seq<Metadata>): (segs: seq<string>)
    ensures |segs| == if |documents| < |metadatas| then |documents| else |metadatas|
    ensures forall i :: 0 <= i < |segs| ==> segs[i] == Segment(documents[i], metadatas[i])
  {
    var n := if |documents| < |metadatas| then |documents| else |metadatas|;
    seq(n, i requires 0 <= i < n => Segment(documents[i], metadatas[i]))
  }

  /**
   * How many leading segments the loop keeps, having already used `used`
   * characters: it stops at the first segment that would overflow `cap`.
   */
  function FitCount(segs: seq<string>, used: int, cap: int): (k: nat)
    ensures k <= |segs|
  {
    if segs == [] || used + |segs[0]| > cap then 0
    else 1 + FitCount(segs[1..], used + |segs[0]|, cap)
  }

  /**
   * The kept segments never sum past the cap, and the next one, if any,
   * would have: the kept run is the longest prefix that fits.
   */
  lemma {:induction false} FitCountSpec(segs: seq<string>, used: int, cap: int)
    ensures var k := FitCount(segs, used, cap);
      && (k > 0 ==> used + TotalLength(segs[..k]) <= cap)
      && (k < |segs| ==> used + TotalLength(segs[..k]) + |segs[k]| > cap)
  {
    if segs != [] && used + |segs[0]| <= cap {
      var rest := segs[1..];
      var k := FitCount(segs, used, cap);
      FitCountSpec(rest, used + |segs[0]|, cap);
      assert segs[..k][1..] == rest[..k - 1];
      assert k < |segs| ==> segs[k] == rest[k - 1];
    }
  }

  /** At position `i`, a segment that overflows stops the count. */
  lemma FitCountStops(segs: seq<string>, i: nat, used: int, cap: int)
    requires i < |segs| && used + |segs[i]| > cap
    ensures FitCount(segs[i..], used, cap) == 0
  {
    assert segs[i..][0] == segs[i];
  }

  /** At position `i`, a segment that fits is counted and the count goes on after it. */
  lemma FitCountGoesOn(segs: seq<string>, i: nat, used: int, cap: int, seg: string, total: int)
    requires i < |segs| && seg == segs[i] && used + |seg| <= cap
    requires total == i + FitCount(segs[i..], used, cap)
    ensures total == (i + 1) + FitCount(segs[i + 1..], used + |seg|, cap)
    ensures segs[..i + 1] == segs[..i] + [seg]
  {
    assert segs[i..][0] == segs[i];
    assert segs[i..][1..] == segs[i + 1..];
  }

  /** The segments `compose_context` emits. */
  function Kept(documents: seq<string>, metadatas: seq<Metadata>, cap: int): seq<string>
  {
    var segs := Segments(documents, metadatas);
    segs[..FitCount(segs, 0, cap)]
  }

  /** The string `compose_context` returns. */
  function ComposedContext(documents: seq<string>, metadatas: seq<Metadata>, cap: int): string
  {
    Join("\n", Kept(documents, metadatas, cap))
  }

  /** `compose_context`: emit segments in order while they fit under `cap`. */
  method ComposeContext(documents: seq<string>, metadatas: seq<Metadata>, cap: int := DefaultCap) returns (r: string)
    ensures r == ComposedContext(documents, metadatas, cap)
  {
    ghost var segs := Segments(documents, metadatas);
    ghost var total := FitCount(segs, 0, cap);
    var out: seq<string> := [];
    var used := 0;
    var n := if |documents| < |metadatas| then |documents| else |metadatas|;
    var i := 0;
    while i < n
      invariant 0 <= i <= n
      invariant out == segs[..i]
      invariant total == i + FitCount(segs[i..], used, cap)
    {
      var seg := Segment(documents[i], metadatas[i]);
      assert seg == segs[i];
      if used + |seg| > cap {
        FitCountStops(segs, i, used, cap);
        break;
      }
      FitCountGoesOn(segs, i, used, cap, seg, total);
      out := out + [seg];
      used := used + |seg|;
      i := i + 1;
    }
    assert out == Kept(documents, metadatas, cap);
    return Join("\n", out);
  }

  /**
   * The emitted segments sum to at most `cap`, but the newline separators
   * are not counted: the result can exceed `cap` by one per extra segment.
   */
  lemma ComposedContextLength(documents: seq<string>, metadatas: seq<Metadata>, cap: int)
    ensures var kept := Kept(documents, metadatas, cap);
      && (kept != [] ==> TotalLength(kept) <= cap)
      && (kept != [] ==> |ComposedContext(documents, metadatas, cap)| == TotalLength(kept) + |kept| - 1)
      && (kept == [] ==> ComposedContext(documents, metadatas, cap) == "")
  {
    FitCountSpec(Segments(documents, metadatas), 0, cap);
  }

  /** The first segment alone overflowing leaves the context empty, whatever follows. */
  lemma FirstOverflowGivesEmpty(documents: seq<string>, metadatas: seq<Metadata>, cap: int)
    requires documents != [] && metadatas != []
    requires |Segment(documents[0], metadatas[0])| > cap
    ensures ComposedContext(documents, metadatas, cap) == ""
  {
  }

  /** Two one-character excerpts that exactly fill the cap give a string one past it. */
  lemma SeparatorExceedsCap()
    ensures |ComposedContext(["a", "b"], [map[], map[]], 42)| == 43
  {
    var segs := Segments(["a", "b"], [map[], map[]]);
    assert |segs[0]| == 21 && |segs[1]| == 21;
    assert FitCount(segs, 0, 42) == 2 by {
      assert FitCount(segs[2..], 42, 42) == 0;
      assert FitCount(segs[1..], 21, 42) == 1;
    }
    ComposedContextLength(["a", "b"], [map[], map[]], 42);
    assert segs[..2] == segs;
    assert TotalLength(segs) == 42;
  }

  // ---------------------------------------------------------------------
  // Canned responses
  // ---------------------------------------------------------------------

  /** A canned answer and the image tags shown with it. */
  datatype DemoResponse = DemoResponse(answer: string, images: seq<string>)

  /** `user_query.lower().strip()`. */
  function NormalizeQuery(query: string): (r: string)
    ensures r != [] ==> !IsSpace(r[0]) && !IsSpace(r[|r| - 1])
    ensures forall i :: 0 <= i < |r| ==> !IsUpperAscii(r[i])
  {
    StripLower(query);
    Strip(Lower(query))
  }

  /**
   * The canned-response loop: the first key, in table order, that occurs in
   * the normalized query selects its response.
   */
  method DemoLookup(userQuery: string, table: seq<(string, DemoResponse)>) returns (r: Option<DemoResponse>)
    ensures r.None? <==> forall i :: 0 <= i < |table| ==> !Contains(NormalizeQuery(userQuery), table[i].0)
    ensures r.Some? ==> exists i ::
      && 0 <= i < |table| && Contains(NormalizeQuery(userQuery), table[i].0) && r.value == table[i].1
      && forall j :: 0 <= j < i ==> !Contains(NormalizeQuery(userQuery), table[j].0)
  {
    var normalizedQuery := Strip(Lower(userQuery));
    for i := 0 to |table|
      invariant forall j :: 0 <= j < i ==> !Contains(normalizedQuery, table[j].0)
    {
      var (key, respData) := table[i];
      if Contains(normalizedQuery, key) {
        return Some(respData);
      }
    }
    return None;
  }
}
