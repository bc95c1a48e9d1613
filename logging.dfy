/**
 * The run log: one global string to which `log(msg)` appends `msg` and a
 * newline. The log is never cleared, so it is the concatenation of the
 * messages logged so far.
 */
module Logging {
  import opened Text

  /** The log text produced by logging `msgs` in order, starting from "". */
  function Lines(msgs: seq<string>): string {
    if msgs == [] then "" else msgs[0] + "\n" + Lines(msgs[1..])
  }

  /** Logging more messages only appends: earlier log text is a prefix of later text. */
  lemma {:induction false} LinesAppend(a: seq<string>, b: seq<string>)
    ensures Lines(a + b) == Lines(a) + Lines(b)
  {
    if a == [] {
      assert a + b == b;
    } else {
      assert (a + b)[1..] == a[1..] + b;
      LinesAppend(a[1..], b);
    }
  }

  /** Appending the lines of `b` to a log ending in the lines of `a`. */
  lemma LogExtends(log: string, a: seq<string>, b: seq<string>)
    ensures log + Lines(a) + Lines(b) == log + Lines(a + b)
  {
    LinesAppend(a, b);
  }

  /** The log is the messages joined by newlines, with a final newline. */
  lemma {:induction false} LinesAsJoin(msgs: seq<string>)
    ensures Lines(msgs) == JoinLines(msgs + [""])
  {
    if msgs != [] {
      LinesAsJoin(msgs[1..]);
      assert (msgs + [""])[1..] == msgs[1..] + [""];
    }
  }

  /**
   * Reading the log back: when no message holds a newline, splitting the log
   * on '\n' yields the messages in order, then the empty piece after the
   * final newline.
   */
  lemma LogReadsBack(msgs: seq<string>)
    requires forall i :: 0 <= i < |msgs| ==> '\n' !in msgs[i]
    ensures SplitLines(Lines(msgs)) == msgs + [""]
  {
    LinesAsJoin(msgs);
    SplitJoinLines(msgs + [""]);
  }
}
