/** Facts about running a state machine over a sequence of inputs. They are stated for any state type,
    so that their proofs never look inside a register. */
module Folds {
  function Fold<R, B>(f: (R, B) -> R, r: R, s: seq<B>): R
    decreases |s|
  {
    if s == [] then r else Fold(f, f(r, s[0]), s[1..])
  }

  lemma {:induction false} FoldAppend<R, B>(f: (R, B) -> R, r: R, a: seq<B>, b: seq<B>)
    ensures Fold(f, r, a + b) == Fold(f, Fold(f, r, a), b)
    decreases |a|
  {
    if a == [] {
      assert a + b == b;
    } else {
      assert (a + b)[1..] == a[1..] + b;
      FoldAppend(f, f(r, a[0]), a[1..], b);
    }
  }

  /** All groups, one after another. */
  function Joined<T>(groups: seq<seq<T>>): seq<T> {
    if groups == [] then [] else groups[0] + Joined(groups[1..])
  }

  function FlatMap<A, B>(g: A -> seq<B>, s: seq<A>): seq<B> {
    if s == [] then [] else g(s[0]) + FlatMap(g, s[1..])
  }

  /** A machine whose every step is a run of another machine refines it on whole inputs. */
  lemma {:induction false} FoldRefines<R(!new), A(!new), B>(f: (R, A) -> R, g: (R, B) -> R, expand: A -> seq<B>,
                                                            r: R, s: seq<A>)
    requires forall t, a :: f(t, a) == Fold(g, t, expand(a))
    ensures Fold(f, r, s) == Fold(g, r, FlatMap(expand, s))
    decreases |s|
  {
    if s != [] {
      FoldAppend(g, r, expand(s[0]), FlatMap(expand, s[1..]));
      FoldRefines(f, g, expand, f(r, s[0]), s[1..]);
    }
  }

  function Zip<B>(add: (B, B) -> B, a: seq<B>, b: seq<B>): (c: seq<B>)
    requires |a| == |b|
    ensures |c| == |a|
  {
    seq(|a|, i requires 0 <= i < |a| => add(a[i], b[i]))
  }

  /** The machine commutes with addition of states and inputs. */
  ghost predicate Linear<R(!new), B(!new)>(f: (R, B) -> R, addR: (R, R) -> R, addB: (B, B) -> B) {
    forall r, t, x, y :: f(addR(r, t), addB(x, y)) == addR(f(r, x), f(t, y))
  }

  lemma {:induction false} FoldLinear<R(!new), B(!new)>(f: (R, B) -> R, addR: (R, R) -> R, addB: (B, B) -> B,
                                                        r: R, t: R, a: seq<B>, b: seq<B>)
    requires |a| == |b| && Linear(f, addR, addB)
    ensures Fold(f, addR(r, t), Zip(addB, a, b)) == addR(Fold(f, r, a), Fold(f, t, b))
    decreases |a|
  {
    if a != [] {
      assert Zip(addB, a, b)[1..] == Zip(addB, a[1..], b[1..]);
      FoldLinear(f, addR, addB, f(r, a[0]), f(t, b[0]), a[1..], b[1..]);
    }
  }

  function Repeat<B>(x: B, n: nat): (s: seq<B>)
    ensures |s| == n
  {
    seq(n, _ => x)
  }

  /** If input `x` fixes state `o` and sends no other state to it, a run of `x` does neither. */
  lemma {:induction false} RepeatKeeps<R(!new), B>(f: (R, B) -> R, o: R, x: B, r: R, n: nat)
    requires forall t :: f(t, x) == o <==> t == o
    ensures Fold(f, r, Repeat(x, n)) == o <==> r == o
    decreases n
  {
    if n > 0 {
      assert Repeat(x, n)[1..] == Repeat(x, n - 1);
      RepeatKeeps(f, o, x, f(r, x), n - 1);
    }
  }

  /** `load(w)` is what must be added to a state so that the inputs `w` may be replaced by zeros. */
  ghost predicate Loads<R(!new), B(!new)>(f: (R, B) -> R, addR: (R, R) -> R, zero: B, load: seq<B> -> R, width: nat) {
    && (forall r :: addR(r, load([])) == r)
    && (forall r, w: seq<B> :: 0 < |w| <= width ==> f(addR(r, load(w)), zero) == addR(f(r, w[0]), load(w[1..])))
  }

  lemma {:induction false} Preload<R(!new), B(!new)>(f: (R, B) -> R, addR: (R, R) -> R, zero: B, load: seq<B> -> R,
                                                     width: nat, r: R, w: seq<B>)
    requires |w| <= width && Loads(f, addR, zero, load, width)
    ensures Fold(f, r, w) == Fold(f, addR(r, load(w)), Repeat(zero, |w|))
    decreases |w|
  {
    if w == [] {
      assert w == [];
      assert addR(r, load(w)) == r;
    } else {
      assert Repeat(zero, |w|)[1..] == Repeat(zero, |w| - 1);
      Preload(f, addR, zero, load, width, f(r, w[0]), w[1..]);
    }
  }

  function FoldRight<R, B>(g: (B, R) -> R, base: R, s: seq<B>): R {
    if s == [] then base else g(s[0], FoldRight(g, base, s[1..]))
  }

  lemma FoldRightAt<R, B>(g: (B, R) -> R, base: R, s: seq<B>, k: nat)
    requires k < |s|
    ensures FoldRight(g, base, s[k..]) == g(s[k], FoldRight(g, base, s[k + 1..]))
  {
    assert s[k..][1..] == s[k + 1..];
  }

  lemma FoldRightEight<R, B>(g: (B, R) -> R, base: R, s: seq<B>)
    requires |s| == 8
    ensures FoldRight(g, base, s) == g(s[0], g(s[1], g(s[2], g(s[3], g(s[4], g(s[5], g(s[6], g(s[7], base))))))))
  {
    assert s[0..] == s;
    FoldRightAt(g, base, s, 0);
    FoldRightAt(g, base, s, 1);
    FoldRightAt(g, base, s, 2);
    FoldRightAt(g, base, s, 3);
    FoldRightAt(g, base, s, 4);
    FoldRightAt(g, base, s, 5);
    FoldRightAt(g, base, s, 6);
    FoldRightAt(g, base, s, 7);
  }

  /** A property of the right fold that may depend on how many elements were folded. */
  lemma {:induction false} FoldRightKeeps<R(!new), B(!new)>(g: (B, R) -> R, base: R, s: seq<B>, p: (nat, R) -> bool)
    requires p(0, base)
    requires forall n: nat, x, v :: p(n, v) ==> p(n + 1, g(x, v))
    ensures p(|s|, FoldRight(g, base, s))
  {
    if s != [] {
      FoldRightKeeps(g, base, s[1..], p);
    }
  }
}
