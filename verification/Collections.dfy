/** The case-insensitive set (patroni/collections.py), the carrier of the node sets that the
    other modules treat as finite sets of lower-cased names. */
module Collections {
  import N = Names

  function LowerChar(c: char): char { if 'A' <= c <= 'Z' then (c as int + 32) as char else c }

  function Lower(s: string): string { seq(|s|, i requires 0 <= i < |s| => LowerChar(s[i])) }

  /** Two spellings are the same name exactly if they differ in the case of letters only. */
  lemma SameNameIff(a: string, b: string)
    ensures Lower(a) == Lower(b) <==> |a| == |b| && forall i :: 0 <= i < |a| ==> SameLetter(a[i], b[i])
  {
    if |a| == |b| {
      forall i | 0 <= i < |a| ensures Lower(a)[i] == Lower(b)[i] <==> SameLetter(a[i], b[i]) {
        SameLetterIff(a[i], b[i]);
      }
    } else {
      assert |Lower(a)| != |Lower(b)|;
    }
  }

  lemma SameLetterIff(c: char, d: char)
    ensures LowerChar(c) == LowerChar(d) <==> SameLetter(c, d)
  {}

  /** The same character, or the same letter of the alphabet as a capital and as a small one. */
  predicate SameLetter(c: char, d: char) {
    c == d || IsCapitalOf(c, d) || IsCapitalOf(d, c)
  }

  predicate IsCapitalOf(c: char, d: char) {
    'A' <= c <= 'Z' && 'a' <= d <= 'z' && c as int - 'A' as int == d as int - 'a' as int
  }

  function LowerAll(values: seq<string>): set<string> { set i | 0 <= i < |values| :: Lower(values[i]) }

  class CaseInsensitiveSet {
    /** The spelling last used for each lower-cased name. */
    var values: map<string, string>

    ghost predicate Valid()
      reads this
    {
      forall k <- values :: Lower(values[k]) == k
    }

    /** The set that this object stands for. */
    function Names(): set<string>
      reads this
    {
      values.Keys
    }

    constructor (initial: seq<string>)
      ensures Valid() && Names() == LowerAll(initial)
    {
      values := map[];
      new;
      for i := 0 to |initial|
        invariant Valid() && Names() == LowerAll(initial[..i])
      {
        Add(initial[i]);
        assert initial[..i + 1] == initial[..i] + [initial[i]];
        assert LowerAll(initial[..i + 1]) == LowerAll(initial[..i]) + {Lower(initial[i])} by {
          assert initial[..i + 1][i] == initial[i];
          assert forall k :: 0 <= k < i ==> initial[..i + 1][k] == initial[..i][k];
        }
      }
      assert initial[..|initial|] == initial;
    }

    method Contains(value: string) returns (found: bool)
      ensures found <==> Lower(value) in Names()
    {
      found := Lower(value) in values;
    }

    method Len() returns (n: nat)
      ensures n == |Names()|
    {
      n := |values|;
    }

    method Add(value: string)
      requires Valid()
      modifies this
      ensures Valid() && Names() == old(Names()) + {Lower(value)}
      ensures values == old(values)[Lower(value) := value]
    {
      values := values[Lower(value) := value];
    }

    method Discard(value: string)
      requires Valid()
      modifies this
      ensures Valid() && Names() == old(Names()) - {Lower(value)}
      ensures forall k <- Names() :: values[k] == old(values)[k]
    {
      values := values - {Lower(value)};
    }

    /** `<=`: fails on size before it compares, and otherwise looks every spelling up. */
    method IsSubset(other: CaseInsensitiveSet) returns (subset: bool)
      requires Valid() && other.Valid()
      ensures subset <==> Names() <= other.Names()
    {
      if |values| > |other.values| {
        if Names() <= other.Names() { N.SubsetSize(Names(), other.Names()); }
        return false;
      }
      var rest := values.Keys;
      while rest != {}
        invariant rest <= Names()
        invariant Names() - rest <= other.Names()
        decreases |rest|
      {
        var k :| k in rest;
        rest := rest - {k};
        var found := other.Contains(values[k]);
        if !found { return false; }
      }
      return true;
    }
  }
}
