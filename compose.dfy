/**
 * Function composition over a sequence of functions: `Compose` applies them
 * right to left, `Pipe` threads a value through them left to right. Both are
 * a left fold (`reduce`) of function application. The source is untyped; the
 * model composes functions of one type `T -> T`.
 */
module Compose {

  /** `pipe(x, *funcs)`: `reduce(lambda v, f: f(v), funcs, x)`. */
  function Pipe<T>(x: T, fs: seq<T -> T>): (r: T)
    ensures fs != [] ==> r == fs[|fs| - 1](Pipe(x, fs[..|fs| - 1]))
    decreases |fs|
  {
    if fs == [] then x
    else
      assert fs[1..] != [] ==> fs[1..][..|fs[1..]| - 1] == fs[..|fs| - 1][1..];
      Pipe(fs[0](x), fs[1..])
  }

  /** `reversed(funcs)` */
  function Reverse<T>(s: seq<T>): (r: seq<T>)
    ensures |r| == |s|
    ensures forall i :: 0 <= i < |s| ==> r[i] == s[|s| - 1 - i]
  {
    if s == [] then [] else [s[|s| - 1]] + Reverse(s[..|s| - 1])
  }

  /** `compose(*funcs)`: `lambda x: reduce(lambda v, f: f(v), reversed(funcs), x)`. */
  function Compose<T>(fs: seq<T -> T>): T -> T
  {
    x => Pipe(x, Reverse(fs))
  }

  /** Piping through `fs + gs` is piping through `fs`, then through `gs`. */
  lemma {:induction false} PipeAppend<T>(x: T, fs: seq<T -> T>, gs: seq<T -> T>)
    ensures Pipe(x, fs + gs) == Pipe(Pipe(x, fs), gs)
    decreases |fs|
  {
    if fs == [] {
      assert fs + gs == gs;
    } else {
      assert (fs + gs)[1..] == fs[1..] + gs;
      PipeAppend(fs[0](x), fs[1..], gs);
    }
  }

  /** `pipe(x)` is `x`; `pipe(x, f, g) == g(f(x))`: left to right. */
  lemma PipeLeftToRight<T>(x: T, f: T -> T, g: T -> T)
    ensures Pipe(x, []) == x
    ensures Pipe(x, [f, g]) == g(f(x))
  {
    assert [f, g][1..] == [g];
    assert [g][1..] == [];
    assert Pipe(f(x), [g]) == Pipe(g(f(x)), []);
  }

  /** The last function of a pipe is applied last. */
  lemma PipeSnoc<T>(x: T, fs: seq<T -> T>, g: T -> T)
    ensures Pipe(x, fs + [g]) == g(Pipe(x, fs))
  {
    PipeAppend(x, fs, [g]);
  }

  lemma {:induction false} ReverseAppend<T>(a: seq<T>, b: seq<T>)
    ensures Reverse(a + b) == Reverse(b) + Reverse(a)
    decreases |b|
  {
    if b == [] {
      assert a + b == a;
    } else {
      var n := |a + b|;
      assert (a + b)[..n - 1] == a + b[..|b| - 1];
      ReverseAppend(a, b[..|b| - 1]);
    }
  }

  lemma {:induction false} ReverseInvolutive<T>(s: seq<T>)
    ensures Reverse(Reverse(s)) == s
    decreases |s|
  {
    if s != [] {
      var last := s[|s| - 1];
      var init := s[..|s| - 1];
      ReverseAppend([last], Reverse(init));
      ReverseInvolutive(init);
      assert Reverse([last]) == [last];
      assert init + [last] == s;
    }
  }

  /** `compose()` with no functions is the identity. */
  lemma ComposeEmpty<T>(x: T)
    ensures Compose<T>([])(x) == x
  {
  }

  /** `compose(f)(x) == f(x)` and `compose(f, g)(x) == f(g(x))`: right to left. */
  lemma ComposeRightToLeft<T>(x: T, f: T -> T, g: T -> T)
    ensures Compose([f])(x) == f(x)
    ensures Compose([f, g])(x) == f(g(x))
  {
    assert Reverse([f]) == [f];
    assert [f][1..] == [];
    assert Pipe(x, [f]) == Pipe(f(x), []);
    assert Reverse([f, g]) == [g, f] by {
      assert [f, g][..1] == [f];
    }
    PipeLeftToRight(x, g, f);
  }

  /** Composing `fs + gs` runs `gs` first, then `fs`. */
  lemma ComposeAppend<T>(x: T, fs: seq<T -> T>, gs: seq<T -> T>)
    ensures Compose(fs + gs)(x) == Compose(fs)(Compose(gs)(x))
  {
    ReverseAppend(fs, gs);
    PipeAppend(x, Reverse(gs), Reverse(fs));
  }

  /** `compose(*fs)(x) == pipe(x, *reversed(fs))` and `pipe(x, *fs) == compose(*reversed(fs))(x)`. */
  lemma ComposeIsReversedPipe<T>(x: T, fs: seq<T -> T>)
    ensures Compose(fs)(x) == Pipe(x, Reverse(fs))
    ensures Pipe(x, fs) == Compose(Reverse(fs))(x)
  {
    ReverseInvolutive(fs);
  }
}
