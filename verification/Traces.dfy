/** Who is resumed in a trace of the shared-stack machine, and with what argument. */
module Traces {
  import Stack = SharedStack
  import opened Scheduling

  function ResumeOf(l: Stack.Label): seq<Entry> {
    if l.Resume? then [Entry(l.c, l.arg)] else []
  }

  /** The resumes of a trace, in order. */
  function Resumed(ls: seq<Stack.Label>): seq<Entry> {
    if ls == [] then [] else Resumed(ls[..|ls| - 1]) + ResumeOf(ls[|ls| - 1])
  }

  lemma ResumedNext(ls: seq<Stack.Label>, l: Stack.Label)
    ensures Resumed(ls + [l]) == Resumed(ls) + ResumeOf(l)
  {
    assert (ls + [l])[..|ls|] == ls;
  }

  lemma {:induction false} NothingResumed(ls: seq<Stack.Label>)
    requires forall l <- ls :: !l.Resume?
    ensures Resumed(ls) == []
  {
    if ls != [] { NothingResumed(ls[..|ls| - 1]); }
  }

  lemma Associates<T>(a: seq<T>, b: seq<T>, c: seq<T>)
    ensures (a + b) + c == a + (b + c)
  {
  }

  lemma {:induction false} ResumedJoins(a: seq<Stack.Label>, b: seq<Stack.Label>)
    ensures Resumed(a + b) == Resumed(a) + Resumed(b)
  {
    if b == [] {
      assert a + b == a;
    } else {
      hide ResumeOf;
      var n := |b| - 1;
      ResumedJoins(a, b[..n]);
      assert a + b == a + b[..n] + [b[n]];
      ResumedNext(a + b[..n], b[n]);
      Associates(Resumed(a), Resumed(b[..n]), ResumeOf(b[n]));
    }
  }
}
