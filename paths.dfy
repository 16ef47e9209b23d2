/** Path locators: a dot-separated string such as "evm.bytecode.object" is
    split on "." and read as a chain of single-key getters, each of which
    turns a failing read into `Undefined`. */
module Paths {
  import opened JsValues

  /** `s.split(".")`: always at least one part; "" gives [""] and "a..b"
      gives ["a", "", "b"]. */
  function Split(s: string): (parts: seq<string>)
    ensures |parts| >= 1
    decreases |s|
  {
    if s == [] then [""]
    else
      var rest := Split(s[1..]);
      if s[0] == '.' then [""] + rest else [[s[0]] + rest[0]] + rest[1..]
  }

  /** `parts.join(".")`. */
  function JoinDots(parts: seq<string>): string
    decreases |parts|
  {
    if parts == [] then ""
    else if |parts| == 1 then parts[0]
    else parts[0] + "." + JoinDots(parts[1..])
  }

  predicate NoDot(s: string) {
    forall i :: 0 <= i < |s| ==> s[i] != '.'
  }

  /** Putting a character in front of the first part puts it in front of
      the joined string. */
  lemma JoinDotsPrepend(c: char, parts: seq<string>)
    requires |parts| >= 1
    ensures JoinDots([[c] + parts[0]] + parts[1..]) == [c] + JoinDots(parts)
  {
    var longer := [[c] + parts[0]] + parts[1..];
    if |parts| > 1 {
      assert longer[1..] == parts[1..];
    }
  }

  /** Splitting then joining gives back the path. */
  lemma {:induction false} JoinSplit(s: string)
    ensures JoinDots(Split(s)) == s
    decreases |s|
  {
    if s != [] {
      JoinSplit(s[1..]);
      var rest := Split(s[1..]);
      if s[0] == '.' {
        assert ([""] + rest)[1..] == rest;
        assert "." + s[1..] == s;
      } else {
        JoinDotsPrepend(s[0], rest);
        assert [s[0]] + s[1..] == s;
      }
    }
  }

  /** No part of a split holds a dot. */
  lemma {:induction false} SplitPartsNoDot(s: string)
    ensures forall i :: 0 <= i < |Split(s)| ==> NoDot(Split(s)[i])
    decreases |s|
  {
    if s != [] {
      SplitPartsNoDot(s[1..]);
      var rest := Split(s[1..]);
      var parts := Split(s);
      if s[0] == '.' {
        assert forall i :: 1 <= i < |parts| ==> parts[i] == rest[i - 1];
      } else {
        assert forall i :: 1 <= i < |parts| ==> parts[i] == rest[i];
        assert parts[0] == [s[0]] + rest[0];
      }
    }
  }

  lemma {:induction false} SplitNoDot(s: string)
    requires NoDot(s)
    ensures Split(s) == [s]
    decreases |s|
  {
    if s != [] {
      SplitNoDot(s[1..]);
      assert [s[0]] + s[1..] == s;
    }
  }

  lemma {:induction false} SplitDot(a: string, b: string)
    requires NoDot(a)
    ensures Split(a + "." + b) == [a] + Split(b)
    decreases |a|
  {
    var s := a + "." + b;
    if a == [] {
      assert s[1..] == b;
    } else {
      SplitDot(a[1..], b);
      assert s[1..] == a[1..] + "." + b;
      assert [a[0]] + a[1..] == a;
    }
  }

  /** Joining dot-free parts then splitting gives back the parts. */
  lemma {:induction false} SplitJoin(parts: seq<string>)
    requires |parts| >= 1
    requires forall i :: 0 <= i < |parts| ==> NoDot(parts[i])
    ensures Split(JoinDots(parts)) == parts
    decreases |parts|
  {
    if |parts| == 1 {
      SplitNoDot(parts[0]);
    } else {
      SplitJoin(parts[1..]);
      SplitDot(parts[0], JoinDots(parts[1..]));
      assert [parts[0]] + parts[1..] == parts;
    }
  }

  /** `chain(getter(k1), ..., getter(kn))(v)`: a left fold of the getters. */
  function Chain(keys: seq<string>, v: Value): Value
    decreases |keys|
  {
    if keys == [] then v else Chain(keys[1..], Getter(keys[0], v))
  }

  /** Once a step yields `Undefined`, the rest of the chain does too. */
  lemma {:induction false} ChainOfUndefined(keys: seq<string>)
    ensures Chain(keys, Undefined) == Undefined
    decreases |keys|
  {
    if keys != [] {
      ChainOfUndefined(keys[1..]);
    }
  }

  /** A read through null never raises: it yields `Undefined`. */
  lemma ChainOfNull(keys: seq<string>)
    requires keys != []
    ensures Chain(keys, Null) == Undefined
  {
    ChainOfUndefined(keys[1..]);
  }

  /** Following a path in two pieces is following it in one. */
  lemma {:induction false} ChainAppend(a: seq<string>, b: seq<string>, v: Value)
    ensures Chain(a + b, v) == Chain(b, Chain(a, v))
    decreases |a|
  {
    if a == [] {
      assert a + b == b;
    } else {
      ChainAppend(a[1..], b, Getter(a[0], v));
      assert (a + b)[0] == a[0];
      assert (a + b)[1..] == a[1..] + b;
    }
  }

  /** The last step of a chain is a single getter. */
  lemma ChainSnoc(keys: seq<string>, k: string, v: Value)
    ensures Chain(keys + [k], v) == Getter(k, Chain(keys, v))
  {
    ChainAppend(keys, [k], v);
  }

  /** A chain yields a defined value only if every intermediate holder is an
      object that has the next key: any missing key, or a holder that is
      null, undefined or not an object, makes the whole path `Undefined`. */
  lemma {:induction false} ChainDefined(keys: seq<string>, v: Value)
    requires Chain(keys, v) != Undefined
    ensures forall i :: 0 <= i < |keys| ==>
      Chain(keys[..i], v).Obj? && keys[i] in Chain(keys[..i], v).fields
    decreases |keys|
  {
    if keys != [] {
      var w := Getter(keys[0], v);
      if w == Undefined {
        ChainOfUndefined(keys[1..]);
        assert false;
      }
      ChainDefined(keys[1..], w);
      forall i | 0 <= i < |keys|
        ensures Chain(keys[..i], v).Obj? && keys[i] in Chain(keys[..i], v).fields
      {
        if i > 0 {
          assert keys[..i] == [keys[0]] + keys[1..][..i - 1];
          ChainAppend([keys[0]], keys[1..][..i - 1], v);
          assert keys[i] == keys[1..][i - 1];
        }
      }
    }
  }
}
