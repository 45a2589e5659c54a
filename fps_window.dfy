/** The frame-rate window: a `deque(maxlen=30)` of per-cycle samples. */
module FpsWindow {

  /** `maxlen` of the deque. */
  const MAX_LEN: nat := 30

  /** A deque never holds more than its `maxlen` items. */
  type Window<T> = q: seq<T> | |q| <= MAX_LEN witness []

  /** `append` on a full bounded deque drops the oldest item from the left. */
  function Append<T>(q: Window<T>, x: T): (r: Window<T>)
    ensures |r| > 0 && r[|r| - 1] == x
    ensures |r| == if |q| < MAX_LEN then |q| + 1 else MAX_LEN
  {
    if |q| < MAX_LEN then q + [x] else q[1..] + [x]
  }

  /** The most recent `MAX_LEN` items of a history (all of it when shorter). */
  function Recent<T>(h: seq<T>): (r: Window<T>)
  {
    if |h| <= MAX_LEN then h else h[|h| - MAX_LEN..]
  }

  /** Appending to the window of a history gives the window of the extended history:
      the deque always holds exactly the most recent samples, oldest first. */
  lemma AppendKeepsRecent<T>(h: seq<T>, x: T)
    ensures Append(Recent(h), x) == Recent(h + [x])
  {
    if |h| >= MAX_LEN {
      var q := Recent(h);
      assert q[1..] + [x] == (h + [x])[|h| + 1 - MAX_LEN..];
    }
  }

  /** By induction over the samples: appending them one at a time to an empty deque
      leaves the most recent `MAX_LEN` of them. */
  function AppendAll<T>(q: Window<T>, xs: seq<T>): Window<T>
    decreases |xs|
  {
    if xs == [] then q else AppendAll(Append(q, xs[0]), xs[1..])
  }

  lemma MoveFirst<T>(h: seq<T>, xs: seq<T>)
    requires xs != []
    ensures h + [xs[0]] + xs[1..] == h + xs
  {
    assert xs == [xs[0]] + xs[1..];
  }

  lemma {:induction false} AppendAllRecent<T>(h: seq<T>, xs: seq<T>)
    ensures AppendAll(Recent(h), xs) == Recent(h + xs)
    decreases |xs|
  {
    if xs != [] {
      AppendKeepsRecent(h, xs[0]);
      AppendAllRecent(h + [xs[0]], xs[1..]);
      MoveFirst(h, xs);
    }
  }
}
