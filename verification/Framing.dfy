/** Cutting a byte stream at its delimiters. */
module Framing {
  import opened Bytes

  predicate AllFree(d: Byte, bodies: seq<seq<Byte>>) {
    forall i :: 0 <= i < |bodies| ==> Free(d, bodies[i])
  }

  /** The bodies of the frames that are terminated in `s`, in order. */
  function Bodies(d: Byte, s: seq<Byte>): (bs: seq<seq<Byte>>)
    ensures AllFree(d, bs)
  {
    if s == [] then []
    else if s[|s| - 1] == d then Bodies(d, s[..|s| - 1]) + [Rest(d, s[..|s| - 1])]
    else Bodies(d, s[..|s| - 1])
  }

  /** `f` of each body and its number, strung together. */
  function Gather<T>(f: (nat, seq<Byte>) -> seq<T>, bodies: seq<seq<Byte>>): seq<T> {
    if bodies == [] then []
    else Gather(f, bodies[..|bodies| - 1]) + f(|bodies| - 1, bodies[|bodies| - 1])
  }

  lemma GatherOneMore<T>(f: (nat, seq<Byte>) -> seq<T>, bodies: seq<seq<Byte>>, body: seq<Byte>)
    ensures Gather(f, bodies + [body]) == Gather(f, bodies) + f(|bodies|, body)
  {
    assert (bodies + [body])[..|bodies|] == bodies;
  }

  lemma Assoc<T>(a: seq<T>, b: seq<T>, c: seq<T>)
    ensures (a + b) + c == a + (b + c)
  {
  }

  lemma GatherClose<T>(f: (nat, seq<Byte>) -> seq<T>, bodies: seq<seq<Byte>>, body: seq<Byte>,
                       open: seq<T>, more: seq<T>)
    requires f(|bodies|, body) == open + more
    ensures Gather(f, bodies + [body]) + [] == Gather(f, bodies) + open + more
  {
    GatherOneMore(f, bodies, body);
  }

  lemma {:induction false} GatherConcat<T>(f: (nat, seq<Byte>) -> seq<T>, g: (nat, seq<Byte>) -> seq<T>,
                                           a: seq<seq<Byte>>, b: seq<seq<Byte>>)
    requires forall i: nat, body :: g(i, body) == f(i + |a|, body)
    ensures Gather(f, a + b) == Gather(f, a) + Gather(g, b)
    decreases |b|
  {
    if b == [] {
      assert a + b == a;
    } else {
      var n := |b| - 1;
      GatherConcat(f, g, a, b[..n]);
      GatherOneMore(f, a + b[..n], b[n]);
      Assoc(Gather(f, a), Gather(g, b[..n]), g(n, b[n]));
      assert a + b == a + b[..n] + [b[n]];
    }
  }

  lemma {:induction false} GatherSingles<T>(f: (nat, seq<Byte>) -> seq<T>, bodies: seq<seq<Byte>>, each: seq<T>)
    requires |bodies| == |each| && forall i :: 0 <= i < |bodies| ==> f(i, bodies[i]) == [each[i]]
    ensures Gather(f, bodies) == each
    decreases |bodies|
  {
    if bodies == [] {
    } else {
      var n := |bodies| - 1;
      GatherSingles(f, bodies[..n], each[..n]);
      assert each == each[..n] + [each[n]];
    }
  }

  /** What follows the last delimiter. */
  function Rest(d: Byte, s: seq<Byte>): (r: seq<Byte>)
    ensures Free(d, r)
  {
    if s == [] || s[|s| - 1] == d then [] else Rest(d, s[..|s| - 1]) + [s[|s| - 1]]
  }

  function Terminated(d: Byte, bodies: seq<seq<Byte>>): seq<Byte> {
    if bodies == [] then []
    else Terminated(d, bodies[..|bodies| - 1]) + (bodies[|bodies| - 1] + [d])
  }

  lemma TerminateOneMore(d: Byte, bodies: seq<seq<Byte>>, body: seq<Byte>)
    ensures Terminated(d, bodies + [body]) == Terminated(d, bodies) + (body + [d])
  {
    assert (bodies + [body])[..|bodies|] == bodies;
  }

  /** Cutting loses nothing. */
  lemma {:induction false} CutAndJoin(d: Byte, s: seq<Byte>)
    ensures Terminated(d, Bodies(d, s)) + Rest(d, s) == s
  {
    if s == [] {
    } else {
      var init, b := s[..|s| - 1], s[|s| - 1];
      CutAndJoin(d, init);
      assert s == init + [b];
      if b == d {
        assert (Bodies(d, init) + [Rest(d, init)])[..|Bodies(d, init)|] == Bodies(d, init);
      }
    }
  }

  lemma CutOneMore(d: Byte, s: seq<Byte>, b: Byte)
    ensures Bodies(d, s + [b]) == if b == d then Bodies(d, s) + [Rest(d, s)] else Bodies(d, s)
    ensures Rest(d, s + [b]) == if b == d then [] else Rest(d, s) + [b]
  {
    assert (s + [b])[..|s|] == s;
  }

  lemma {:induction false} CutFree(d: Byte, s: seq<Byte>, body: seq<Byte>)
    requires Free(d, body)
    ensures Bodies(d, s + body) == Bodies(d, s)
    ensures Rest(d, s + body) == Rest(d, s) + body
    decreases |body|
  {
    hide Bodies, Rest;
    if body == [] {
      assert s + body == s && Rest(d, s) + body == Rest(d, s);
    } else {
      var n := |body| - 1;
      CutFree(d, s, body[..n]);
      CutOneMore(d, s + body[..n], body[n]);
      assert body == body[..n] + [body[n]];
      Assoc(s, body[..n], [body[n]]);
      Assoc(Rest(d, s), body[..n], [body[n]]);
    }
  }

  /** Framing is unique: any list of bodies without the delimiter, each followed by it, is cut back
      into the same list. */
  lemma {:induction false} CutTerminated(d: Byte, bodies: seq<seq<Byte>>)
    requires AllFree(d, bodies)
    ensures Bodies(d, Terminated(d, bodies)) == bodies && Rest(d, Terminated(d, bodies)) == []
  {
    if bodies == [] {
    } else {
      var n := |bodies| - 1;
      var s := Terminated(d, bodies[..n]);
      CutTerminated(d, bodies[..n]);
      CutFree(d, s, bodies[n]);
      CutOneMore(d, s + bodies[n], d);
      assert s + (bodies[n] + [d]) == s + bodies[n] + [d];
      assert [] + bodies[n] == bodies[n] && bodies == bodies[..n] + [bodies[n]];
    }
  }

  lemma CutStep(d: Byte, s: seq<Byte>, t: seq<Byte>, b: Byte)
    requires Bodies(d, s + t) == Bodies(d, s) + Bodies(d, t) && Rest(d, s + t) == Rest(d, t)
    ensures Bodies(d, s + (t + [b])) == Bodies(d, s) + Bodies(d, t + [b])
    ensures Rest(d, s + (t + [b])) == Rest(d, t + [b])
  {
    hide Bodies, Rest;
    CutOneMore(d, s + t, b);
    CutOneMore(d, t, b);
    Assoc(s, t, [b]);
    Assoc(Bodies(d, s), Bodies(d, t), [Rest(d, t)]);
  }

  /** After a delimiter the cutting of the rest does not depend on what came before. */
  lemma {:induction false} CutAfterDelimiter(d: Byte, s: seq<Byte>, t: seq<Byte>)
    requires Rest(d, s) == []
    ensures Bodies(d, s + t) == Bodies(d, s) + Bodies(d, t)
    ensures Rest(d, s + t) == Rest(d, t)
    decreases |t|
  {
    if t == [] {
      assert s + t == s;
    } else {
      var n := |t| - 1;
      assert t[..n] + [t[n]] == t;
      CutAfterDelimiter(d, s, t[..n]);
      CutStep(d, s, t[..n], t[n]);
    }
  }
}
