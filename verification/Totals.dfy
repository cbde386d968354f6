/** Amounts charged to labels, and what the sums by label add up to. */
module Totals {

  datatype Charge = Charge(tag: string, amount: real)

  function Sum(charges: seq<Charge>): real {
    if charges == [] then 0.0 else Sum(charges[..|charges| - 1]) + charges[|charges| - 1].amount
  }

  /** What one label is charged. */
  function SumFor(charges: seq<Charge>, tag: string): real {
    if charges == [] then 0.0 else
    SumFor(charges[..|charges| - 1], tag)
      + if charges[|charges| - 1].tag == tag then charges[|charges| - 1].amount else 0.0
  }

  /** A missing label counts as zero. */
  function Added(m: map<string, real>, tag: string, amount: real): map<string, real> {
    m[tag := (if tag in m then m[tag] else 0.0) + amount]
  }

  function Grouped(charges: seq<Charge>): map<string, real> {
    if charges == [] then map[]
    else Added(Grouped(charges[..|charges| - 1]), charges[|charges| - 1].tag, charges[|charges| - 1].amount)
  }

  lemma GroupedMore(charges: seq<Charge>, tag: string, amount: real)
    ensures Grouped(charges + [Charge(tag, amount)]) == Added(Grouped(charges), tag, amount)
  {
    assert (charges + [Charge(tag, amount)])[..|charges|] == charges;
  }

  /** The sum of all values of a map. */
  ghost function MapSum(m: map<string, real>): real
    decreases |m|
  {
    if m == map[] then 0.0 else
    var tag :| tag in m;
    assert |m - {tag}| < |m| by { Smaller(m, tag); }
    m[tag] + MapSum(m - {tag})
  }

  lemma Smaller(m: map<string, real>, tag: string)
    requires tag in m
    ensures |m - {tag}| < |m|
  {
    assert m.Keys == (m - {tag}).Keys + {tag};
    assert |m.Keys| == |m| && |(m - {tag}).Keys| == |m - {tag}|;
  }

  /** Any label may be taken out first. */
  lemma {:induction false} MapSumWithout(m: map<string, real>, tag: string)
    requires tag in m
    ensures MapSum(m) == m[tag] + MapSum(m - {tag})
    decreases |m|
  {
    var first :| first in m && MapSum(m) == m[first] + MapSum(m - {first});
    if first != tag {
      Smaller(m, first);
      Smaller(m, tag);
      MapSumWithout(m - {first}, tag);
      MapSumWithout(m - {tag}, first);
      assert m - {first} - {tag} == m - {tag} - {first};
    }
  }

  lemma AddedSum(m: map<string, real>, tag: string, amount: real)
    ensures MapSum(Added(m, tag, amount)) == MapSum(m) + amount
  {
    var m' := Added(m, tag, amount);
    MapSumWithout(m', tag);
    assert m' - {tag} == m - {tag};
    if tag in m {
      MapSumWithout(m, tag);
    } else {
      assert m - {tag} == m;
    }
  }

  /** The labels together carry everything that was charged. */
  lemma {:induction false} GroupedSum(charges: seq<Charge>)
    ensures MapSum(Grouped(charges)) == Sum(charges)
  {
    if charges == [] {
    } else {
      var init, last := charges[..|charges| - 1], charges[|charges| - 1];
      GroupedSum(init);
      AddedSum(Grouped(init), last.tag, last.amount);
    }
  }

  /** Each label carries what it was charged, and only charged labels are there. */
  lemma {:induction false} GroupedAt(charges: seq<Charge>, tag: string)
    ensures tag in Grouped(charges) <==> exists i :: 0 <= i < |charges| && charges[i].tag == tag
    ensures SumFor(charges, tag) == if tag in Grouped(charges) then Grouped(charges)[tag] else 0.0
  {
    if charges == [] {
    } else {
      var init := charges[..|charges| - 1];
      GroupedAt(init, tag);
    }
  }
}
