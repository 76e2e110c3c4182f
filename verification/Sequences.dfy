/** Sequences put together from parts. */
module Sequences {
  /** The parts with the separator between them. */
  function Join<T>(parts: seq<seq<T>>, separator: seq<T>): seq<T> {
    if parts == [] then [] else if |parts| == 1 then parts[0] else parts[0] + separator + Join(parts[1..], separator)
  }

  lemma JoinNothing<T>(separator: seq<T>)
    ensures Join([], separator) == []
  {
  }

  lemma JoinOne<T>(part: seq<T>, separator: seq<T>)
    ensures Join([part], separator) == part
  {
  }

  lemma JoinCons<T>(part: seq<T>, rest: seq<seq<T>>, separator: seq<T>)
    requires rest != []
    ensures Join([part] + rest, separator) == part + separator + Join(rest, separator)
  {
    assert ([part] + rest)[1..] == rest;
  }

  /** Joining in two steps. */
  lemma {:induction false} JoinAppend<T>(a: seq<seq<T>>, b: seq<seq<T>>, separator: seq<T>)
    requires a != [] && b != []
    ensures Join(a + b, separator) == Join(a, separator) + separator + Join(b, separator)
    decreases |a|
  {
    hide Join;
    if |a| == 1 {
      JoinOne(a[0], separator);
      JoinCons(a[0], b, separator);
      assert a == [a[0]];
    } else {
      var rest := a[1..];
      JoinAppend(rest, b, separator);
      JoinCons(a[0], rest, separator);
      JoinCons(a[0], rest + b, separator);
      assert a == [a[0]] + rest && a + b == [a[0]] + (rest + b);
      Regroup(a[0], separator, Join(rest, separator), Join(b, separator));
    }
  }

  lemma Regroup<T>(a: seq<T>, b: seq<T>, c: seq<T>, d: seq<T>)
    ensures a + b + (c + b + d) == a + b + c + b + d
  {
  }

  /** A joined prefix of the parts is a prefix of the whole. */
  lemma JoinPrefix<T>(parts: seq<seq<T>>, n: nat, separator: seq<T>)
    requires n <= |parts|
    ensures Join(parts[..n], separator) <= Join(parts, separator)
  {
    hide Join;
    if n == 0 {
      JoinNothing<T>(separator);
    } else if n == |parts| {
      assert parts[..n] == parts;
    } else {
      var a, b := parts[..n], parts[n..];
      JoinAppend(a, b, separator);
      assert parts == a + b;
      Front(Join(a, separator), separator, Join(b, separator));
    }
  }

  lemma Front<T>(a: seq<T>, b: seq<T>, c: seq<T>)
    ensures a <= a + b + c
  {
    assert a + b + c == a + (b + c);
  }
}
