/** `Object.keys(x).sort()`: the keys of a record in the order of their UTF-16 code units. */
module SortedKeys {
  import opened Wrappers

  /** A number that orders characters as their UTF-16 code units do. */
  function Rank(c: char): int {
    var code := c as int;
    if code < 0xD800 then code
    else if code >= 0x10000 then code - 0x10000 + 0xE000
    else code + 0x100000
  }

  predicate Le(s: string, t: string) {
    s == "" || (t != "" && (Rank(s[0]) < Rank(t[0]) || (s[0] == t[0] && Le(s[1..], t[1..]))))
  }

  lemma {:induction false} LeTotal(s: string, t: string)
    ensures Le(s, t) || Le(t, s)
    ensures Le(s, t) && Le(t, s) ==> s == t
  {
    if s != "" && t != "" && s[0] == t[0] {
      LeTotal(s[1..], t[1..]);
      assert s == [s[0]] + s[1..] && t == [t[0]] + t[1..];
    }
  }

  lemma {:induction false} LeTransitive(s: string, t: string, u: string)
    requires Le(s, t) && Le(t, u)
    ensures Le(s, u)
  {
    if s != "" && s[0] == t[0] == u[0] {
      LeTransitive(s[1..], t[1..], u[1..]);
    }
  }

  predicate IsLeast(key: string, keys: set<string>) {
    key in keys && forall other :: other in keys ==> Le(key, other)
  }

  lemma {:induction false} LeastExists(keys: set<string>)
    requires keys != {}
    ensures exists key :: IsLeast(key, keys)
  {
    var key :| key in keys;
    var rest := keys - {key};
    LeTotal(key, key);
    if rest == {} {
      assert forall other :: other in keys ==> other == key || other in rest;
      assert IsLeast(key, keys);
    } else {
      LeastExists(rest);
      var least :| IsLeast(least, rest);
      LeTotal(key, least);
      if Le(key, least) {
        forall other | other in keys ensures Le(key, other) {
          if other != key {
            LeTransitive(key, least, other);
          }
        }
        assert IsLeast(key, keys);
      } else {
        assert IsLeast(least, keys);
      }
    }
  }

  lemma LeastUnique(keys: set<string>)
    ensures forall p, q :: IsLeast(p, keys) && IsLeast(q, keys) ==> p == q
  {
    forall p, q | IsLeast(p, keys) && IsLeast(q, keys) ensures p == q {
      LeTotal(p, q);
    }
  }

  function Least(keys: set<string>): (key: string)
    requires keys != {}
    ensures IsLeast(key, keys)
  {
    LeastExists(keys);
    LeastUnique(keys);
    var key :| key in keys && IsLeast(key, keys);
    key
  }

  /** The keys in ascending order. */
  function Sorted(keys: set<string>): (r: seq<string>)
    ensures forall key :: key in r <==> key in keys
    decreases |keys|
  {
    if keys == {} then []
    else
      var least := Least(keys);
      [least] + Sorted(keys - {least})
  }

  /** Each key is listed once, in ascending order. */
  lemma {:induction false} SortedInOrder(keys: set<string>)
    ensures NoDuplicates(Sorted(keys))
    ensures forall i, j :: 0 <= i < j < |Sorted(keys)| ==> Le(Sorted(keys)[i], Sorted(keys)[j])
    decreases |keys|
  {
    if keys != {} {
      SortedInOrder(keys - {Least(keys)});
    }
  }
}
