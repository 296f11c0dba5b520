/** Keeping a conversation within its prompt budget: tool-result eviction, the tiered
    summary, and compression of the older turns. */
module ContextBudget {
  import opened Common
  import opened Whitespace
  import Lines

  const ACTIVE_SUMMARY_CHAR_BUDGET: nat := 4000
  const ARCHIVE_ROW_LIMIT: nat := 12
  const COMPRESS_THRESHOLD_CHARS: nat := 120_000
  const CHARS_PER_TOKEN: nat := 4
  const PROMPT_BUDGET_PERCENT: nat := 60
  const MIN_COMPRESS_THRESHOLD_CHARS: nat := 16_000
  const TOOL_RESULT_CHAR_BUDGET: nat := 60_000

  datatype Message = Message(
    role: string,
    content: string,
    toolCalls: seq<string>,
    toolCallId: Option<string>,
    name: Option<string>,
    isError: bool,
    native: seq<string>)
  {
    predicate IsTool() { role == "tool" }
  }

  // ----- tool-result eviction

  function ToolChars(messages: seq<Message>): nat {
    if messages == [] then 0
    else (if messages[0].IsTool() then |messages[0].content| else 0) + ToolChars(messages[1..])
  }

  function Placeholder(length: nat): string {
    "[tool result elided: " + Lines.Decimal(length) + " chars, re-run the call if you still need it]"
  }

  // A tool result that is longer than the pointer that would replace it.
  predicate Shrinks(m: Message) {
    m.IsTool() && |Placeholder(|m.content|)| < |m.content|
  }

  function Elide(m: Message): Message {
    if Shrinks(m) then m.(content := Placeholder(|m.content|)) else m
  }

  /** The list with every oversized tool result among its first `k` messages elided. */
  function Elided(messages: seq<Message>, k: nat): seq<Message> {
    seq(|messages|, i requires 0 <= i < |messages| => if i < k then Elide(messages[i]) else messages[i])
  }

  function CountShrinking(messages: seq<Message>, k: nat): nat
    requires k <= |messages|
  {
    if k == 0 then 0 else CountShrinking(messages, k - 1) + (if Shrinks(messages[k - 1]) then 1 else 0)
  }

  ghost predicate OverBefore(messages: seq<Message>, budget: nat, stop: nat)
    requires stop <= |messages|
  {
    forall k :: 0 <= k < stop ==> ToolChars(Elided(messages, k)) > budget
  }

  /** `result` is the list elided from its oldest end exactly as far as the budget needs:
      it fits, or nothing is left to elide, and stopping one message earlier would not fit. */
  ghost predicate Evicted(messages: seq<Message>, budget: nat, result: seq<Message>, stop: nat) {
    && stop <= |messages| && result == Elided(messages, stop)
    && (stop < |messages| ==> ToolChars(result) <= budget)
    && OverBefore(messages, budget, stop)
  }

  lemma {:induction false} ToolCharsUpdate(messages: seq<Message>, i: nat, m: Message)
    requires i < |messages| && m.IsTool() && messages[i].IsTool()
    ensures ToolChars(messages[i := m]) == ToolChars(messages) - |messages[i].content| + |m.content|
    ensures ToolChars(messages) >= |messages[i].content|
  {
    if i > 0 {
      assert messages[i := m][1..] == messages[1..][i - 1 := m];
      ToolCharsUpdate(messages[1..], i - 1, m);
    } else {
      assert messages[i := m][1..] == messages[1..];
    }
  }

  lemma {:induction false} ElideStep(messages: seq<Message>, i: nat)
    requires i < |messages|
    ensures Elided(messages, i + 1) == Elided(messages, i)[i := Elide(messages[i])]
    ensures ToolChars(Elided(messages, i + 1)) ==
            ToolChars(Elided(messages, i)) - |messages[i].content| + |Elide(messages[i]).content|
    ensures Shrinks(messages[i]) ==> ToolChars(Elided(messages, i)) >= |messages[i].content|
  {
    if Shrinks(messages[i]) {
      ToolCharsUpdate(Elided(messages, i), i, Elide(messages[i]));
    } else {
      assert Elided(messages, i + 1) == Elided(messages, i);
    }
  }

  lemma {:induction false} OverOneMore(messages: seq<Message>, budget: nat, stop: nat)
    requires stop < |messages| && OverBefore(messages, budget, stop) && ToolChars(Elided(messages, stop)) > budget
    ensures OverBefore(messages, budget, stop + 1)
  {
  }

  method EvictToolResults(messages: seq<Message>, budget: nat)
    returns (result: seq<Message>, evicted: nat, stop: nat)
    ensures Evicted(messages, budget, result, stop)
    ensures evicted == CountShrinking(messages, stop)
  {
    result, evicted, stop := messages, 0, 0;
    assert Elided(messages, 0) == messages;
    var total := ToolChars(messages);
    if total <= budget {
      return;
    }
    var remaining := total;
    var i := 0;
    while i < |messages|
      invariant i <= |messages| && stop == i
      invariant result == Elided(messages, i) && evicted == CountShrinking(messages, i)
      invariant remaining == ToolChars(result)
      invariant OverBefore(messages, budget, i)
    {
      if remaining <= budget {
        break;
      }
      ElideStep(messages, i);
      OverOneMore(messages, budget, i);
      var m := result[i];
      if m.IsTool() {
        var placeholder := Placeholder(|m.content|);
        if |placeholder| < |m.content| {
          result := result[i := m.(content := placeholder)];
          remaining := remaining - |m.content| + |placeholder|;
          evicted := evicted + 1;
        }
      }
      i := i + 1;
      stop := i;
    }
  }

  /** What eviction never touches: the length, the order, and everything of a message but
      the body of a tool result. At the end the tool bodies fit the budget, or each of them
      is already no longer than its placeholder or has been replaced by it. */
  lemma {:induction false} EvictionKeeps(messages: seq<Message>, budget: nat, result: seq<Message>, stop: nat)
    requires Evicted(messages, budget, result, stop)
    ensures |result| == |messages|
    ensures forall i :: 0 <= i < |messages| ==>
      && result[i] == messages[i].(content := result[i].content)
      && (result[i] != messages[i] ==> messages[i].role == "tool" && |result[i].content| < |messages[i].content|)
    ensures ToolChars(result) <= budget ||
      forall i :: 0 <= i < |messages| && messages[i].role == "tool" ==>
        var pointer := "[tool result elided: " + Lines.Decimal(|messages[i].content|)
                       + " chars, re-run the call if you still need it]";
        result[i].content == pointer || |messages[i].content| <= |pointer|
  {
  }

  lemma {:induction false} ToolCharsConcat(a: seq<Message>, b: seq<Message>)
    ensures ToolChars(a + b) == ToolChars(a) + ToolChars(b)
  {
    if a == [] {
      assert a + b == b;
    } else {
      assert (a + b)[1..] == a[1..] + b;
      ToolCharsConcat(a[1..], b);
    }
  }

  /** The characters that count against the budget are those of the tool results, each by itself. */
  lemma {:induction false} ToolCharsAddUp(m: Message, more: seq<Message>)
    ensures ToolChars([]) == 0
    ensures ToolChars(more + [m]) == ToolChars(more) + if m.role == "tool" then |m.content| else 0
  {
    ToolCharsConcat(more, [m]);
    assert [m][1..] == [];
  }

  // ----- the tiered summary

  function Take(s: string, n: nat): string {
    if |s| <= n then s else s[..n]
  }

  function Last<T>(rows: seq<T>, n: nat): seq<T> {
    if |rows| <= n then rows else rows[|rows| - n..]
  }

  class TieredSummary {
    var active: string
    var archive: seq<string>

    ghost predicate Valid()
      reads this
    {
      |active| <= 4000 && |archive| <= 12
    }

    constructor ()
      ensures Valid() && active == "" && archive == []
    {
      active, archive := "", [];
    }

    /** Fold a text in: appended while it fits, otherwise the old summary is archived whole,
        the newest rows are kept, and the text starts a new summary. */
    method Absorb(text: string)
      requires Valid()
      modifies this
      ensures Valid()
      ensures var joined := if old(active) == "" then Trim(text) else old(active) + "\n\n" + Trim(text);
        if |joined| <= 4000 then
          active == joined && archive == old(archive)
        else
          && active == (if |Trim(text)| <= 4000 then Trim(text) else Trim(text)[..4000])
          && archive == if old(active) == "" then old(archive)
                        else if |old(archive)| < 12 then old(archive) + [old(active)]
                        else old(archive)[1..] + [old(active)]
    {
      var candidate := "";
      if active != "" {
        candidate := active + "\n\n";
      }
      candidate := candidate + Trim(text);
      assert active == "" ==> candidate == Trim(text);
      if |candidate| > ACTIVE_SUMMARY_CHAR_BUDGET {
        if active != "" {
          archive := archive + [active];
        }
        ghost var rows := archive;
        while |archive| > ARCHIVE_ROW_LIMIT
          invariant archive == Last(rows, |archive|) && |archive| <= |rows|
          invariant |rows| > ARCHIVE_ROW_LIMIT ==> |archive| >= ARCHIVE_ROW_LIMIT
          invariant |rows| <= ARCHIVE_ROW_LIMIT ==> archive == rows
        {
          archive := archive[1..];
        }
        active := Take(Trim(text), ACTIVE_SUMMARY_CHAR_BUDGET);
      } else {
        active := candidate;
      }
    }
  }

  // ----- compression

  function CompressThreshold(windowTokens: nat): nat {
    if windowTokens == 0 then COMPRESS_THRESHOLD_CHARS
    else
      var budget := windowTokens * CHARS_PER_TOKEN * PROMPT_BUDGET_PERCENT / 100;
      if budget >= MIN_COMPRESS_THRESHOLD_CHARS then budget else MIN_COMPRESS_THRESHOLD_CHARS
  }

  function EstimateChars(messages: seq<Message>): nat {
    if messages == [] then 0
    else |messages[0].content| + |messages[0].role| + 16 + EstimateChars(messages[1..])
  }

  lemma {:induction false} EstimateConcat(a: seq<Message>, b: seq<Message>)
    ensures EstimateChars(a + b) == EstimateChars(a) + EstimateChars(b)
  {
    if a == [] {
      assert a + b == b;
    } else {
      assert (a + b)[1..] == a[1..] + b;
      EstimateConcat(a[1..], b);
    }
  }

  /** The estimate of a list is the sum over its messages of content, role and sixteen more. */
  lemma {:induction false} EstimateAddsUp(m: Message, more: seq<Message>)
    ensures EstimateChars([]) == 0
    ensures EstimateChars(more + [m]) == EstimateChars(more) + |m.content| + |m.role| + 16
  {
    EstimateConcat(more, [m]);
    assert [m][1..] == [];
  }

  // Where the last third, and at least the last four messages, begin.
  function TailStart(length: nat): nat {
    var keep := if length / 3 >= 4 then length / 3 else 4;
    if length >= keep then length - keep else 0
  }

  /** The threshold is 120000 characters for an unknown window; for a known one three fifths of it
      at four characters a token, in whole characters, but never below 16000. A larger window never
      lowers it. */
  lemma {:induction false} ThresholdGrows(windowTokens: nat, larger: nat)
    requires 0 < windowTokens <= larger
    ensures CompressThreshold(0) == 120_000
    ensures 16_000 <= CompressThreshold(windowTokens) <= CompressThreshold(larger)
    ensures 12 * windowTokens >= 5 * 16_000 ==>
      5 * CompressThreshold(windowTokens) <= 12 * windowTokens < 5 * (CompressThreshold(windowTokens) + 1)
    ensures 12 * windowTokens < 5 * 16_000 ==> CompressThreshold(windowTokens) == 16_000
  {
  }

  /** The tail estimate is the last third, rounded down, but at least four messages, or all there
      are. */
  lemma {:induction false} TailIs(length: nat)
    ensures var tail := length - TailStart(length);
      && (length <= 4 ==> tail == length)
      && (length > 4 ==> tail >= 4 && 3 * (tail + 1) > length && (tail == 4 || 3 * tail <= length))
  {
  }

  /** The first index from the tail's start on that is not a tool result. When the whole
      tail is tool results that is the end of the list: nothing is retained. */
  method SafeSplit(messages: seq<Message>) returns (split: nat)
    ensures TailStart(|messages|) <= split <= |messages|
    ensures forall i :: TailStart(|messages|) <= i < split ==> messages[i].IsTool()
    ensures split < |messages| ==> !messages[split].IsTool()
  {
    split := TailStart(|messages|);
    while split < |messages| && messages[split].IsTool()
      invariant TailStart(|messages|) <= split <= |messages|
      invariant forall i :: TailStart(|messages|) <= i < split ==> messages[i].IsTool()
    {
      split := split + 1;
    }
  }

  /** Every run of tool results follows an assistant message. */
  ghost predicate Paired(messages: seq<Message>) {
    forall i :: 0 <= i < |messages| && messages[i].IsTool() ==>
      i > 0 && (messages[i - 1].IsTool() || messages[i - 1].role == "assistant")
  }

  function HistoryMessage(active: string): Message {
    Message("system", "<compressed_history>\n" + active + "\n</compressed_history>", [], None, None, false, [])
  }

  lemma {:induction false} EvictionPairs(messages: seq<Message>, budget: nat, result: seq<Message>, stop: nat)
    requires Evicted(messages, budget, result, stop)
    ensures Paired(messages) ==> Paired(result)
  {
    EvictionKeeps(messages, budget, result, stop);
    forall i | 0 <= i < |result|
      ensures result[i].role == messages[i].role
    {
    }
  }

  lemma {:induction false} TailPairs(list: seq<Message>, split: nat, head: Message)
    requires 0 < split <= |list| && (split < |list| ==> !list[split].IsTool()) && !head.IsTool()
    ensures var result := [head] + list[split..];
            && list[..split] + result[1..] == list
            && (|result| > 1 ==> !result[1].IsTool())
            && (Paired(list) ==> Paired(result))
  {
    var result := [head] + list[split..];
    assert result[1..] == list[split..];
    assert forall i :: 1 <= i < |result| ==> result[i] == list[split + i - 1];
  }

  ghost function KeptFrom(messages: seq<Message>, i: nat): (split: nat)
    requires i <= |messages|
    ensures i <= split <= |messages|
    decreases |messages| - i
  {
    if i < |messages| && messages[i].IsTool() then KeptFrom(messages, i + 1) else i
  }

  // The split position, as a function of the list.
  ghost function FirstKept(messages: seq<Message>): (split: nat)
    ensures split <= |messages|
  {
    KeptFrom(messages, TailStart(|messages|))
  }

  lemma {:induction false} KeptFromIs(messages: seq<Message>, i: nat, split: nat)
    requires i <= split <= |messages|
    requires forall k :: i <= k < split ==> messages[k].IsTool()
    requires split < |messages| ==> !messages[split].IsTool()
    ensures KeptFrom(messages, i) == split
    decreases split - i
  {
    if i < split {
      KeptFromIs(messages, i + 1, split);
    }
  }

  lemma {:induction false} FirstKeptIs(messages: seq<Message>, split: nat)
    requires TailStart(|messages|) <= split <= |messages|
    requires forall k :: TailStart(|messages|) <= k < split ==> messages[k].IsTool()
    requires split < |messages| ==> !messages[split].IsTool()
    ensures FirstKept(messages) == split
  {
    KeptFromIs(messages, TailStart(|messages|), split);
  }

  /** Compress the older turns. `reply` is what the summariser answers to the messages in
      `asked`, if it is asked at all. A skipped compression returns the evicted list as it
      is; otherwise the summarised messages and the retained ones are exactly that list,
      and the retained ones open with no tool result. */
  method Compress(messages: seq<Message>, summary: TieredSummary, windowTokens: nat, reply: Option<string>)
    returns (result: seq<Message>, skipped: bool, evicted: nat,
             asked: Option<seq<Message>>, ghost list: seq<Message>, ghost stop: nat)
    requires summary.Valid()
    modifies summary
    ensures summary.Valid()
    ensures Evicted(messages, 60_000, list, stop)
    ensures asked == if EstimateChars(list) >= CompressThreshold(windowTokens) && FirstKept(list) > 0
                     then Some(list[..FirstKept(list)]) else None
    ensures skipped <==> asked.None? || reply.None? || Trim(reply.value) == ""
    ensures skipped ==>
      && result == list && summary.active == old(summary.active)
      && summary.archive == old(summary.archive)
    ensures !skipped ==>
      && asked.value != [] && result != [] && summary.active != ""
      && result[0] == Message("system", "<compressed_history>\n" + summary.active + "\n</compressed_history>",
                              [], None, None, false, [])
      && asked.value + result[1..] == list
      && (|result| > 1 ==> !result[1].IsTool())
    ensures Paired(messages) ==> Paired(result)
  {
    var rest;
    rest, evicted, stop := EvictToolResults(messages, TOOL_RESULT_CHAR_BUDGET);
    list, asked, skipped, result := rest, None, true, rest;
    EvictionPairs(messages, TOOL_RESULT_CHAR_BUDGET, rest, stop);
    if EstimateChars(rest) < CompressThreshold(windowTokens) {
      return;
    }
    var split := SafeSplit(rest);
    FirstKeptIs(rest, split);
    if split == 0 {
      return;
    }
    asked := Some(rest[..split]);
    if reply.Some? && Trim(reply.value) != "" {
      summary.Absorb(reply.value);
      skipped := false;
      result := [];
      if summary.active != "" {
        result := [HistoryMessage(summary.active)];
      }
      result := result + rest[split..];
      TailPairs(rest, split, HistoryMessage(summary.active));
    }
  }

  lemma {:induction false} KeptFromFirst(messages: seq<Message>, i: nat)
    requires i <= |messages|
    ensures forall k :: i <= k < KeptFrom(messages, i) ==> messages[k].IsTool()
    ensures KeptFrom(messages, i) < |messages| ==> !messages[KeptFrom(messages, i)].IsTool()
    decreases |messages| - i
  {
    if i < |messages| && messages[i].IsTool() {
      KeptFromFirst(messages, i + 1);
    }
  }

  /** Nothing is retained exactly when the whole tail is tool results; the summary then
      stands for the entire list. */
  lemma {:induction false} NothingRetained(messages: seq<Message>)
    ensures FirstKept(messages) == |messages| <==>
      forall i :: TailStart(|messages|) <= i < |messages| ==> messages[i].IsTool()
  {
    KeptFromFirst(messages, TailStart(|messages|));
  }

  lemma {:induction false} ToolCharsOfSame(m: Message, messages: seq<Message>)
    requires m.IsTool() && forall k :: 0 <= k < |messages| ==> messages[k] == m
    ensures ToolChars(messages) == |messages| * |m.content|
  {
    if messages != [] {
      ToolCharsOfSame(m, messages[1..]);
    }
  }

  /** Such a list: a long call and its five results, within the budget for results and over
      the threshold. The list is well paired, and all of it is handed to the summary. */
  lemma {:induction false} ToolTailSummarised(call: Message, result: Message, windowTokens: nat)
    requires call.role == "assistant" && |call.content| >= CompressThreshold(windowTokens)
    requires result.IsTool() && 5 * |result.content| <= TOOL_RESULT_CHAR_BUDGET
    ensures var messages := [call, result, result, result, result, result];
            && Paired(messages)
            && Evicted(messages, TOOL_RESULT_CHAR_BUDGET, messages, 0)
            && EstimateChars(messages) >= CompressThreshold(windowTokens)
            && FirstKept(messages) == |messages|
  {
    var messages := [call, result, result, result, result, result];
    NothingRetained(messages);
    assert TailStart(|messages|) == 2;
    assert Elided(messages, 0) == messages;
    var results := messages[1..];
    assert results == [result, result, result, result, result];
    ToolCharsOfSame(result, results);
    assert ToolChars(messages) == ToolChars(results);
  }
}
