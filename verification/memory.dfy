/**
 * The per-session conversation memory of memory_manager.py.
 *
 * A MemoryManager keeps a map from session id to a Session record. Each
 * record holds a window of `recent` messages and an append-only list of
 * `packed` summary blocks. Appending a message that overflows the window
 * moves the oldest messages into one new summary block. Two read-only
 * lookups answer "was this just asked?" and "was a related topic packed?".
 *
 * The similarity score and the summarizer are parameters: the first is any
 * function into [0, 1], the second an oracle that may fail.
 */
module Memory {
  import opened Wrappers
  import opened Text

  type SessionId = string

  /** An ISO-8601 time stamp; its value is never inspected. */
  type Timestamp = string

  datatype Message = Message(role: string, content: string)

  datatype PackedBlock = PackedBlock(summary: string, timestamp: Timestamp)

  datatype Session = Session(
    userId: string,
    createdAt: Timestamp,
    recent: seq<Message>,
    packed: seq<PackedBlock>)

  /** The `KeyError` raised when a session id is not in the store. */
  datatype MemoryError = UnknownSession(id: SessionId)

  /** The summarization call: `None` when it raises. */
  type Summarizer = string -> Option<string>

  /** A string-similarity ratio, always within [0, 1]. */
  type Similarity = f: (string, string) -> real | forall a, b :: 0.0 <= f(a, b) <= 1.0
    witness (a: string, b: string) => 0.0

  const DefaultMaxRecent: nat := 5
  const FallbackLength: nat := 400
  const RecentThreshold: real := 0.85
  const PackedThreshold: real := 0.7

  // ---------------------------------------------------------------------
  // Summarization and rendering
  // ---------------------------------------------------------------------

  /** `summarize_text`: the oracle's answer, or the first 400 characters of the input when it fails. */
  function SummarizeText(text: string, summarize: Summarizer): (r: string)
    ensures summarize(text).Some? ==> r == summarize(text).value
    ensures summarize(text).None? ==> IsPrefix(r, text)
    ensures summarize(text).None? ==> |r| == if |text| < FallbackLength then |text| else FallbackLength
  {
    match summarize(text)
    case Some(summary) => summary
    case None => Take(text, FallbackLength)
  }

  function Line(m: Message): string
  {
    m.role + ": " + m.content
  }

  /** The overflow as `"role: content"` lines joined by newlines, in list order. */
  function Render(msgs: seq<Message>): (text: string)
    ensures msgs == [] ==> text == []
    ensures |msgs| == 1 ==> text == msgs[0].role + ": " + msgs[0].content
  {
    Join("\n", seq(|msgs|, i requires 0 <= i < |msgs| => Line(msgs[i])))
  }

  /** Rendering two runs of messages puts exactly one newline between them. */
  lemma RenderAppend(a: seq<Message>, b: seq<Message>)
    requires a != [] && b != []
    ensures Render(a + b) == Render(a) + "\n" + Render(b)
  {
    var la := seq(|a|, i requires 0 <= i < |a| => Line(a[i]));
    var lb := seq(|b|, i requires 0 <= i < |b| => Line(b[i]));
    assert seq(|a + b|, i requires 0 <= i < |a + b| => Line((a + b)[i])) == la + lb;
    JoinAppend("\n", la, lb);
  }

  // ---------------------------------------------------------------------
  // Python slices with a non-negative bound
  // ---------------------------------------------------------------------

  /** `s[:-k]`: for k == 0 this is `s[:0]`, the empty list. */
  function DropLast<T>(s: seq<T>, k: nat): (r: seq<T>)
    ensures k == 0 ==> r == []
    ensures 1 <= k ==> |r| == if k < |s| then |s| - k else 0
    ensures r <= s
  {
    if k == 0 || |s| <= k then [] else s[..|s| - k]
  }

  /** `s[-k:]`: for k == 0 this is `s[0:]`, the whole list. */
  function LastOf<T>(s: seq<T>, k: nat): (r: seq<T>)
    ensures k == 0 ==> r == s
    ensures 1 <= k ==> |r| == if k < |s| then k else |s|
    ensures r == s[|s| - |r|..]
  {
    if k == 0 || |s| <= k then s else s[|s| - k..]
  }

  /** `s[:-k] + s[-k:] == s`: the two slices split the list. */
  lemma SplitLast<T>(s: seq<T>, k: nat)
    ensures DropLast(s, k) + LastOf(s, k) == s
  {
    if 1 <= k < |s| {
      assert s[..|s| - k] + s[|s| - k..] == s;
    }
  }

  /** A suffix of `s`, extended by `t`, is the same suffix of `s + t`. */
  lemma AppendToSuffix<T>(s: seq<T>, t: seq<T>, i: nat)
    requires i <= |s|
    ensures s[i..] + t == (s + t)[i..]
  {
  }

  /** A suffix of a suffix is a suffix. */
  lemma SuffixOfSuffix<T>(x: seq<T>, i: nat, j: nat)
    requires i + j <= |x|
    ensures x[i..][j..] == x[i + j..]
  {
  }

  /** Taking the last k of a list's last k, extended, is taking the last k of the whole. */
  lemma LastOfAppend<T>(s: seq<T>, t: seq<T>, k: nat)
    requires 1 <= k
    ensures LastOf(LastOf(s, k) + t, k) == LastOf(s + t, k)
  {
    var a := LastOf(s, k);
    var st := s + t;
    var i := |s| - |a|;
    AppendToSuffix(s, t, i);
    var l := LastOf(a + t, k);
    SuffixOfSuffix(st, i, |a + t| - |l|);
  }

  /** The window after one append and then a run, expressed on the whole run. */
  lemma WindowStep<T>(before: seq<T>, m: T, rest: seq<T>, k: nat, w1: seq<T>, w2: seq<T>)
    requires 1 <= k
    requires w1 == LastOf(before + [m], k)
    requires w2 == LastOf(w1 + rest, k)
    ensures w2 == LastOf(before + ([m] + rest), k)
  {
    LastOfAppend(before + [m], rest, k);
    assert before + [m] + rest == before + ([m] + rest);
  }

  // ---------------------------------------------------------------------
  // One session: packing and appending
  // ---------------------------------------------------------------------

  /**
   * `_pack_old_messages` on one record: a no-op unless `recent` is longer
   * than `maxRecent`; otherwise the overflow becomes one new summary block
   * and `recent` keeps its last `maxRecent` messages.
   */
  function Pack(s: Session, maxRecent: nat, summarize: Summarizer, now: Timestamp): (t: Session)
    ensures t.userId == s.userId && t.createdAt == s.createdAt
    ensures |s.recent| <= maxRecent ==> t == s
    ensures |s.recent| > maxRecent ==>
      && t.recent == LastOf(s.recent, maxRecent)
      && t.packed == s.packed + [PackedBlock(SummarizeText(Render(DropLast(s.recent, maxRecent)), summarize), now)]
    ensures 1 <= maxRecent ==> |t.recent| <= maxRecent
  {
    if |s.recent| <= maxRecent then s
    else
      var toSummarize := DropLast(s.recent, maxRecent);
      var summary := SummarizeText(Render(toSummarize), summarize);
      s.(packed := s.packed + [PackedBlock(summary, now)], recent := LastOf(s.recent, maxRecent))
  }

  /**
   * `add_message` on one record: append, then pack when the window overflows.
   */
  function Append(s: Session, m: Message, maxRecent: nat, summarize: Summarizer, now: Timestamp): (t: Session)
    ensures t.userId == s.userId && t.createdAt == s.createdAt
    ensures 1 <= maxRecent ==> t.recent == LastOf(s.recent + [m], maxRecent)
    ensures 1 <= maxRecent ==> |t.recent| <= maxRecent
    // the archive only grows, by one block exactly when the window overflowed
    ensures s.packed <= t.packed
    ensures |t.packed| == |s.packed| + if |s.recent| + 1 > maxRecent then 1 else 0
    ensures |s.recent| + 1 > maxRecent ==>
      t.packed[|s.packed|].summary == SummarizeText(Render(DropLast(s.recent + [m], maxRecent)), summarize)
    // with an empty window nothing ever leaves `recent`, and each block summarizes ""
    ensures maxRecent == 0 ==>
      && t.recent == s.recent + [m]
      && t.packed == s.packed + [PackedBlock(SummarizeText("", summarize), now)]
  {
    var appended := s.(recent := s.recent + [m]);
    if |appended.recent| > maxRecent then Pack(appended, maxRecent, summarize, now) else appended
  }

  /**
   * Nothing is lost or duplicated by an append: the overflow that is
   * summarized, followed by the new window, is the old window plus the
   * new message.
   */
  lemma AppendConserves(s: Session, m: Message, maxRecent: nat, summarize: Summarizer, now: Timestamp)
    ensures s.recent + [m] == DropLast(s.recent + [m], maxRecent) + Append(s, m, maxRecent, summarize, now).recent
  {
    SplitLast(s.recent + [m], maxRecent);
  }

  /** A run of `add_message` calls on one record. */
  function AppendAll(s: Session, msgs: seq<Message>, maxRecent: nat, summarize: Summarizer, now: Timestamp): Session
    decreases |msgs|
  {
    if msgs == [] then s
    else AppendAll(Append(s, msgs[0], maxRecent, summarize, now), msgs[1..], maxRecent, summarize, now)
  }

  /**
   * After any run of appends to a record whose window is within bounds, the
   * window holds the last `maxRecent` of all messages, in order.
   */
  lemma {:induction false} AppendAllWindow(s: Session, msgs: seq<Message>, maxRecent: nat, summarize: Summarizer, now: Timestamp)
    requires 1 <= maxRecent && |s.recent| <= maxRecent
    decreases |msgs|
    ensures AppendAll(s, msgs, maxRecent, summarize, now).recent == LastOf(s.recent + msgs, maxRecent)
  {
    if msgs != [] {
      var m, rest := msgs[0], msgs[1..];
      var s1 := Append(s, m, maxRecent, summarize, now);
      assert AppendAll(s, msgs, maxRecent, summarize, now) == AppendAll(s1, rest, maxRecent, summarize, now);
      AppendAllWindow(s1, rest, maxRecent, summarize, now);
      WindowStep(s.recent, m, rest, maxRecent, s1.recent, AppendAll(s1, rest, maxRecent, summarize, now).recent);
      assert msgs == [m] + rest;
    }
  }

  /**
   * After any run of appends to a record whose window is within bounds,
   * the old blocks are untouched and one block was added per message that
   * overflowed the window.
   */
  lemma {:induction false} AppendAllPacked(s: Session, msgs: seq<Message>, maxRecent: nat, summarize: Summarizer, now: Timestamp)
    requires 1 <= maxRecent && |s.recent| <= maxRecent
    decreases |msgs|
    ensures s.packed <= AppendAll(s, msgs, maxRecent, summarize, now).packed
    ensures |AppendAll(s, msgs, maxRecent, summarize, now).packed|
         == |s.packed| + if |s.recent| + |msgs| > maxRecent then |s.recent| + |msgs| - maxRecent else 0
  {
    if msgs != [] {
      var m, rest := msgs[0], msgs[1..];
      var s1 := Append(s, m, maxRecent, summarize, now);
      AppendAllPacked(s1, rest, maxRecent, summarize, now);
      assert |s1.recent| == if |s.recent| + 1 <= maxRecent then |s.recent| + 1 else maxRecent;
    }
  }

  // ---------------------------------------------------------------------
  // find_recent_match
  // ---------------------------------------------------------------------

  /** The score of a stored text against the query, both lower-cased. */
  function Score(sim: Similarity, query: string, text: string): (r: real)
    ensures 0.0 <= r <= 1.0
  {
    sim(Lower(query), Lower(text))
  }

  /** `list.index`: the first position holding a message equal to `m`. */
  function IndexOf(s: seq<Message>, m: Message): (j: nat)
    requires m in s
    ensures j < |s| && s[j] == m
    ensures forall k :: 0 <= k < j ==> s[k] != m
  {
    if s[0] == m then 0 else 1 + IndexOf(s[1..], m)
  }

  /**
   * Position `i` makes the reverse scan answer: a user message similar
   * enough to the query, whose FIRST equal copy is followed by an assistant
   * message.
   */
  predicate Answers(recent: seq<Message>, i: int, query: string, sim: Similarity, threshold: real)
  {
    && 0 <= i < |recent|
    && recent[i].role == "user"
    && Score(sim, query, recent[i].content) >= threshold
    && IndexOf(recent, recent[i]) + 1 < |recent|
    && recent[IndexOf(recent, recent[i]) + 1].role == "assistant"
  }

  /** The reply the scan returns for an answering position. */
  function ReplyAt(recent: seq<Message>, i: int, query: string, sim: Similarity, threshold: real): string
    requires Answers(recent, i, query, sim, threshold)
  {
    recent[IndexOf(recent, recent[i]) + 1].content
  }

  /** The reverse scan over `recent[..n]`: the newest answering position wins. */
  function RecentMatchBelow(recent: seq<Message>, n: nat, query: string, sim: Similarity, threshold: real): Option<string>
    requires n <= |recent|
  {
    if n == 0 then None
    else if Answers(recent, n - 1, query, sim, threshold) then Some(ReplyAt(recent, n - 1, query, sim, threshold))
    else RecentMatchBelow(recent, n - 1, query, sim, threshold)
  }

  /**
   * The scan is decided by the newest answering position `k` below `n`:
   * with none (`k == -1`) there is no reply, otherwise it is `k`'s reply.
   */
  lemma {:induction false} RecentMatchBelowSpec(recent: seq<Message>, n: nat, query: string, sim: Similarity, threshold: real, k: int)
    requires n <= |recent| && -1 <= k < n
    requires k >= 0 ==> Answers(recent, k, query, sim, threshold)
    requires forall j :: k < j < n ==> !Answers(recent, j, query, sim, threshold)
    ensures k == -1 ==> RecentMatchBelow(recent, n, query, sim, threshold) == None
    ensures k >= 0 ==> RecentMatchBelow(recent, n, query, sim, threshold) == Some(ReplyAt(recent, k, query, sim, threshold))
  {
    if n > 0 && k < n - 1 {
      assert !Answers(recent, n - 1, query, sim, threshold);
      RecentMatchBelowSpec(recent, n - 1, query, sim, threshold, k);
    }
  }

  /** What `find_recent_match` returns for a window. */
  function RecentMatch(recent: seq<Message>, query: string, sim: Similarity, threshold: real): Option<string>
  {
    RecentMatchBelow(recent, |recent|, query, sim, threshold)
  }

  /**
   * When the same user message was asked twice, the reply after its FIRST
   * copy is returned, even though the scan met the newer copy first.
   */
  lemma RepeatedQuestionGetsOldestReply(sim: Similarity, query: string, q: string, first: string, second: string)
    requires Score(sim, query, q) >= RecentThreshold
    ensures RecentMatch([Message("user", q), Message("assistant", first), Message("user", q), Message("assistant", second)],
                        query, sim, RecentThreshold) == Some(first)
  {
    var recent := [Message("user", q), Message("assistant", first), Message("user", q), Message("assistant", second)];
    assert IndexOf(recent, recent[2]) == 0;
    assert Answers(recent, 2, query, sim, RecentThreshold);
    assert !Answers(recent, 3, query, sim, RecentThreshold);
    assert RecentMatchBelow(recent, 4, query, sim, RecentThreshold)
        == RecentMatchBelow(recent, 3, query, sim, RecentThreshold);
  }

  /**
   * A matching user message with no reply after it does not stop the scan:
   * an older answered match is still found.
   */
  lemma UnansweredMatchIsSkipped(sim: Similarity, query: string, q1: string, a: string, q2: string)
    requires Score(sim, query, q1) >= RecentThreshold
    ensures RecentMatch([Message("user", q1), Message("assistant", a), Message("user", q2)],
                        query, sim, RecentThreshold) == Some(a)
  {
    var recent := [Message("user", q1), Message("assistant", a), Message("user", q2)];
    assert IndexOf(recent, recent[0]) == 0;
    assert Answers(recent, 0, query, sim, RecentThreshold);
    assert !Answers(recent, 1, query, sim, RecentThreshold);
    if Answers(recent, 2, query, sim, RecentThreshold) {
      assert ReplyAt(recent, 2, query, sim, RecentThreshold) == a;
    } else {
      assert RecentMatchBelow(recent, 2, query, sim, RecentThreshold)
          == RecentMatchBelow(recent, 1, query, sim, RecentThreshold);
    }
  }

  // ---------------------------------------------------------------------
  // search_packed
  // ---------------------------------------------------------------------

  function BlockScore(packed: seq<PackedBlock>, j: int, query: string, sim: Similarity): real
    requires 0 <= j < |packed|
  {
    Score(sim, query, packed[j].summary)
  }

  /**
   * The best-score scan over `packed[..n]` starting from a best score of 0
   * and replacing it only on a strictly higher score: the first block with
   * the highest positive score, or none when every score is 0.
   */
  function BestBelow(packed: seq<PackedBlock>, n: nat, query: string, sim: Similarity): (b: Option<nat>)
    requires n <= |packed|
    ensures b.Some? ==>
      && b.value < n
      && BlockScore(packed, b.value, query, sim) > 0.0
      && (forall j :: 0 <= j < n ==> BlockScore(packed, j, query, sim) <= BlockScore(packed, b.value, query, sim))
      && (forall j :: 0 <= j < b.value ==> BlockScore(packed, j, query, sim) < BlockScore(packed, b.value, query, sim))
    ensures b.None? ==> forall j :: 0 <= j < n ==> BlockScore(packed, j, query, sim) == 0.0
  {
    if n == 0 then None
    else
      var b := BestBelow(packed, n - 1, query, sim);
      var best := if b.Some? then BlockScore(packed, b.value, query, sim) else 0.0;
      if BlockScore(packed, n - 1, query, sim) > best then Some(n - 1) else b
  }

  /**
   * What `search_packed` returns: the summary of the first highest-scoring
   * block when that score is strictly above 0.7.
   */
  function PackedMatch(packed: seq<PackedBlock>, query: string, sim: Similarity): (r: Option<string>)
    ensures r.Some? <==> exists j :: 0 <= j < |packed| && BlockScore(packed, j, query, sim) > PackedThreshold
    ensures r.Some? ==> exists j ::
      && 0 <= j < |packed| && r.value == packed[j].summary
      && BlockScore(packed, j, query, sim) > PackedThreshold
      && (forall k :: 0 <= k < |packed| ==> BlockScore(packed, k, query, sim) <= BlockScore(packed, j, query, sim))
      && (forall k :: 0 <= k < j ==> BlockScore(packed, k, query, sim) < BlockScore(packed, j, query, sim))
  {
    var b := BestBelow(packed, |packed|, query, sim);
    if b.Some? && BlockScore(packed, b.value, query, sim) > PackedThreshold then Some(packed[b.value].summary) else None
  }

  /** Two blocks tying on the best score above 0.7: the earlier one is returned. */
  lemma TieGoesToEarlierBlock(sim: Similarity, query: string, b1: PackedBlock, b2: PackedBlock)
    requires Score(sim, query, b1.summary) == Score(sim, query, b2.summary) > PackedThreshold
    ensures PackedMatch([b1, b2], query, sim) == Some(b1.summary)
  {
    var packed := [b1, b2];
    assert BlockScore(packed, 0, query, sim) > PackedThreshold;
  }

  // ---------------------------------------------------------------------
  // Fresh session ids
  // ---------------------------------------------------------------------

  /** An upper bound on the length of every key in a finite set. */
  ghost function MaxKeyLength(keys: set<string>): (n: nat)
    ensures forall k :: k in keys ==> |k| <= n
    decreases keys
  {
    if keys == {} then 0
    else
      var k :| k in keys;
      var rest := MaxKeyLength(keys - {k});
      if |k| > rest then |k| else rest
  }

  // ---------------------------------------------------------------------
  // The manager
  // ---------------------------------------------------------------------

  class MemoryManager {
    /** `max_recent`: the capacity of each session's window. */
    const maxRecent: nat
    /** `sessions`: session id to record. */
    var sessions: map<SessionId, Session>

    /** Every window is within capacity (meaningful when the capacity is positive). */
    ghost predicate WindowsBounded()
      reads this
    {
      1 <= maxRecent ==> forall sid :: sid in sessions ==> |sessions[sid].recent| <= maxRecent
    }

    /** `__init__` followed by `load`: `stored` is what the session file held (empty if none). */
    constructor (stored: map<SessionId, Session>, maxRecent: nat := DefaultMaxRecent)
      ensures this.maxRecent == maxRecent && sessions == stored
    {
      this.maxRecent := maxRecent;
      sessions := stored;
    }

    /** `create_session`: one new key, with an empty record owned by `userId`. */
    method CreateSession(userId: string, now: Timestamp) returns (sid: SessionId)
      modifies this
      ensures sid !in old(sessions)
      ensures sessions == old(sessions)[sid := Session(userId, now, [], [])]
      ensures old(WindowsBounded()) ==> WindowsBounded()
    {
      ghost var unused := seq(MaxKeyLength(sessions.Keys) + 1, _ => 'x');
      assert unused !in sessions;
      sid :| sid !in sessions;
      sessions := sessions[sid := Session(userId, now, [], [])];
    }

    /**
     * `add_message`: append to the session's window, pack on overflow. An
     * unknown id raises and changes nothing.
     */
    method AddMessage(sid: SessionId, role: string, content: string, summarize: Summarizer, now: Timestamp)
      returns (r: Result<(), MemoryError>)
      modifies this
      ensures sid !in old(sessions) ==> r == Err(UnknownSession(sid)) && sessions == old(sessions)
      ensures sid in old(sessions) ==>
        && r.Ok?
        && sessions == old(sessions)[sid := Append(old(sessions)[sid], Message(role, content), maxRecent, summarize, now)]
      ensures sid in old(sessions) && 1 <= maxRecent ==> |sessions[sid].recent| <= maxRecent
      ensures old(WindowsBounded()) ==> WindowsBounded()
    {
      if sid !in sessions {
        return Err(UnknownSession(sid));
      }
      var session := sessions[sid];
      ghost var updated := Append(session, Message(role, content), maxRecent, summarize, now);
      session := session.(recent := session.recent + [Message(role, content)]);
      sessions := sessions[sid := session];
      if |session.recent| > maxRecent {
        PackOldMessages(sid, summarize, now);
        assert sessions[sid] == updated;
      }
      assert sessions == old(sessions)[sid := updated];
      return Ok(());
    }

    /** `_pack_old_messages` on the session stored under `sid`. */
    method PackOldMessages(sid: SessionId, summarize: Summarizer, now: Timestamp)
      requires sid in sessions
      modifies this
      ensures sessions == old(sessions)[sid := Pack(old(sessions)[sid], maxRecent, summarize, now)]
    {
      var session := sessions[sid];
      if |session.recent| <= maxRecent {
        return;
      }
      var toSummarize := DropLast(session.recent, maxRecent);
      var text := Render(toSummarize);
      var summary := SummarizeText(text, summarize);
      session := session.(packed := session.packed + [PackedBlock(summary, now)]);
      session := session.(recent := LastOf(session.recent, maxRecent));
      sessions := sessions[sid := session];
    }

    /** `find_recent_match`: the newest-first scan of the window; reads only. */
    method FindRecentMatch(sid: SessionId, query: string, sim: Similarity, threshold: real := RecentThreshold)
      returns (r: Result<Option<string>, MemoryError>)
      ensures sid !in sessions ==> r == Err(UnknownSession(sid))
      ensures sid in sessions ==> r == Ok(RecentMatch(sessions[sid].recent, query, sim, threshold))
    {
      if sid !in sessions {
        return Err(UnknownSession(sid));
      }
      var recent := sessions[sid].recent;
      var i := |recent|;
      while i > 0
        invariant 0 <= i <= |recent|
        invariant RecentMatch(recent, query, sim, threshold) == RecentMatchBelow(recent, i, query, sim, threshold)
      {
        i := i - 1;
        var msg := recent[i];
        if msg.role == "user" {
          var similarity := sim(Lower(query), Lower(msg.content));
          if similarity >= threshold {
            var idx := IndexOf(recent, msg);
            if idx + 1 < |recent| && recent[idx + 1].role == "assistant" {
              assert Answers(recent, i, query, sim, threshold);
              return Ok(Some(recent[idx + 1].content));
            }
          }
        }
        assert !Answers(recent, i, query, sim, threshold);
      }
      return Ok(None);
    }

    /** `search_packed`: the best-score scan over the summaries; reads only. */
    method SearchPacked(sid: SessionId, query: string, sim: Similarity)
      returns (r: Result<Option<string>, MemoryError>)
      ensures sid !in sessions ==> r == Err(UnknownSession(sid))
      ensures sid in sessions ==> r == Ok(PackedMatch(sessions[sid].packed, query, sim))
    {
      if sid !in sessions {
        return Err(UnknownSession(sid));
      }
      var packed := sessions[sid].packed;
      var bestMatch: Option<nat> := None;
      var bestScore: real := 0.0;
      for i := 0 to |packed|
        invariant bestMatch == BestBelow(packed, i, query, sim)
        invariant bestScore == if bestMatch.Some? then BlockScore(packed, bestMatch.value, query, sim) else 0.0
      {
        var score := sim(Lower(query), Lower(packed[i].summary));
        if score > bestScore {
          bestScore := score;
          bestMatch := Some(i);
        }
      }
      if bestMatch.Some? && bestScore > PackedThreshold {
        return Ok(Some(packed[bestMatch.value].summary));
      }
      return Ok(None);
    }
  }
}
