/** Numbered assignments distributed over the sheet's ruled lines. */
module Assignments {
  import opened Prelude

  /** `-(-n // buckets)` */
  function PerLine(n: nat, buckets: nat): nat
    requires buckets > 0
  {
    (n + buckets - 1) / buckets
  }

  /** Consecutive slices of `per` items. */
  function Chunks(items: seq<string>, per: nat): seq<seq<string>>
    requires items != [] ==> per > 0
    decreases |items|
  {
    if items == [] then []
    else if |items| <= per then [items]
    else [items[..per]] + Chunks(items[per..], per)
  }

  /** The items of each ruled line; `rules` is the number of ruled lines of the template. */
  function LineItems(items: seq<string>, rules: nat): seq<seq<string>> {
    var buckets := if rules < 1 then 1 else rules;
    if items == [] then []
    else if buckets == 1 then [items]
    else
      PerLineSuffices(|items|, buckets);
      var chunks := Chunks(items, PerLine(|items|, buckets));
      if |chunks| <= buckets then chunks else chunks[..buckets]
  }

  function JoinAll(lines: seq<seq<string>>, separator: string): seq<string> {
    seq(|lines|, i requires 0 <= i < |lines| => Join(lines[i], separator))
  }

  /** `dropped_assignments`: how many items the ruled lines could not show. */
  function Dropped(n: nat, rules: nat): int {
    var buckets := if rules < 1 then 1 else rules;
    var shown := PerLine(n, buckets) * buckets;
    n - if n < shown then n else shown
  }

  lemma PerLineSuffices(n: nat, buckets: nat)
    requires buckets > 0
    ensures n <= PerLine(n, buckets) * buckets
    ensures n > 0 ==> PerLine(n, buckets) > 0
  {
    var m := n + buckets - 1;
    assert m == PerLine(n, buckets) * buckets + m % buckets;
  }

  lemma {:induction false} ChunksPartition(items: seq<string>, per: nat, lines: nat)
    requires items != [] ==> per > 0
    requires |items| <= per * lines
    ensures Flatten(Chunks(items, per)) == items
    ensures |Chunks(items, per)| <= lines
    ensures forall c <- Chunks(items, per) :: 0 < |c| <= per
    ensures forall i :: 0 <= i < |Chunks(items, per)| - 1 ==> |Chunks(items, per)[i]| == per
    decreases |items|
  {
    if items != [] {
      OneLineLess(|items|, per, lines);
      if |items| > per {
        ChunksPartition(items[per..], per, lines - 1);
        assert items == items[..per] + items[per..];
      } else {
        assert Flatten([items]) == items + Flatten([]);
      }
    }
  }

  lemma OneLineLess(n: nat, per: nat, lines: nat)
    requires 0 < n <= per * lines
    ensures lines > 0 && n - per <= per * (lines - 1)
  {
    assert per * 0 == 0;
    assert per * lines == per + per * (lines - 1);
  }

  /** All lines but the last hold as many items as it takes to spread them over the rules. */
  lemma LinesAreEven(items: seq<string>, rules: nat, i: nat)
    requires rules >= 2 && i + 1 < |LineItems(items, rules)|
    ensures |LineItems(items, rules)[i]| == (|items| + rules - 1) / rules
  {
    PerLineSuffices(|items|, rules);
    var per := PerLine(|items|, rules);
    assert per == (|items| + rules - 1) / rules;
    hide PerLine;
    ChunksPartition(items, per, rules);
    hide Chunks;
  }

  /** The lines hold every item exactly once and in order, and never outnumber the ruled lines; nothing is dropped. */
  lemma NothingDropped(items: seq<string>, rules: nat)
    ensures Flatten(LineItems(items, rules)) == items
    ensures |LineItems(items, rules)| <= if rules < 1 then 1 else rules
    ensures forall c <- LineItems(items, rules) :: c != []
    ensures Dropped(|items|, rules) == 0
  {
    var buckets := if rules < 1 then 1 else rules;
    PerLineSuffices(|items|, buckets);
    ChunksPartition(items, PerLine(|items|, buckets), buckets);
    assert Flatten([items]) == items + Flatten([]);
  }
}
