/** Highest-rank selection as a set: the `k` elements with the least keys. */
module Rendezvous {
  import opened Sequences

  ghost predicate Injective<T(!new)>(all: set<T>, h: T -> nat)
  {
    forall x, y :: x in all && y in all && h(x) == h(y) ==> x == y
  }

  function Below<T>(all: set<T>, h: T -> nat, x: T): set<T>
  {
    set y | y in all && h(y) < h(x)
  }

  function Top<T>(all: set<T>, h: T -> nat, k: int): set<T>
  {
    set x | x in all && |Below(all, h, x)| < k
  }

  function LeqBy<T>(h: T -> nat): (T, T) -> bool
  {
    (a: T, b: T) => h(a) <= h(b)
  }

  lemma LeqByTotal<T(!new)>(h: T -> nat)
    ensures TotalPreorder(LeqBy(h))
  {
  }

  /** The first `k` elements of a list sorted by key are the top `k` of its elements. */
  lemma SortedTop<T(!new)>(list: seq<T>, h: T -> nat, k: nat)
    requires NoDup(list) && Sorted(list, LeqBy(h)) && Injective(Elements(list), h) && k <= |list|
    ensures Elements(list[..k]) == Top(Elements(list), h, k)
  {
    forall i | 0 <= i < |list| ensures |Below(Elements(list), h, list[i])| == i {
      RankInSorted(list, h, i);
    }
    forall x ensures x in Elements(list[..k]) <==> x in Top(Elements(list), h, k) {
      if x in list[..k] {
        var i :| 0 <= i < k && list[i] == x;
      }
      if x in Top(Elements(list), h, k) {
        var i :| 0 <= i < |list| && list[i] == x;
        assert list[..k][i] == x;
      }
    }
  }

  lemma RankInSorted<T(!new)>(list: seq<T>, h: T -> nat, i: nat)
    requires NoDup(list) && Sorted(list, LeqBy(h)) && Injective(Elements(list), h) && i < |list|
    ensures |Below(Elements(list), h, list[i])| == i
  {
    assert forall j :: i < j < |list| ==> LeqBy(h)(list[i], list[j]);
    forall y ensures y in Below(Elements(list), h, list[i]) <==> y in Elements(list[..i]) {
      if y in Below(Elements(list), h, list[i]) {
        var j :| 0 <= j < |list| && list[j] == y;
        assert list[..i][j] == y;
      }
      if y in list[..i] {
        var j :| 0 <= j < i && list[..i][j] == y;
        assert LeqBy(h)(list[j], list[i]) && list[j] != list[i];
      }
    }
    assert Below(Elements(list), h, list[i]) == Elements(list[..i]);
    NoDupSize(list[..i]);
  }

  /** Taking away an element that was not selected changes nothing. */
  lemma DropUnselected<T(!new)>(all: set<T>, h: T -> nat, k: int, z: T)
    requires Injective(all, h) && z in all && z !in Top(all, h, k)
    ensures Top(all - {z}, h, k) == Top(all, h, k)
  {
    forall x | x in all - {z} ensures x in Top(all - {z}, h, k) <==> x in Top(all, h, k) {
      if h(z) < h(x) {
        SubsetSize(Below(all, h, z), Below(all - {z}, h, x));
        SubsetSize(Below(all, h, z), Below(all, h, x));
      } else {
        assert Below(all - {z}, h, x) == Below(all, h, x);
      }
    }
  }

  /** Elements outside a set of which every member is selected can all be taken away. */
  lemma {:induction false} DropAllUnselected<T(!new)>(all: set<T>, h: T -> nat, k: int, kept: set<T>)
    requires Injective(all, h) && kept <= all && Top(all, h, k) <= kept
    ensures Top(kept, h, k) == Top(all, h, k)
    decreases all
  {
    if all == kept {
    } else {
      assert kept + (all - kept) == all;
      assert all - kept != {};
      var z :| z in all - kept;
      DropUnselected(all, h, k, z);
      DropAllUnselected(all - {z}, h, k, kept);
    }
  }

  lemma BelowWithOne<T>(all: set<T>, h: T -> nat, x: T, z: T)
    ensures |Below(all, h, x)| <= |Below(all + {z}, h, x)| <= |Below(all, h, x)| + 1
  {
    var below := Below(all, h, x);
    assert Below(all + {z}, h, x) == if h(z) < h(x) then below + {z} else below;
    assert z in below ==> below + {z} == below;
  }

  /** Adding one element lets at most that element in and at most one other out. */
  lemma AddOne<T(!new)>(all: set<T>, h: T -> nat, k: int, z: T)
    requires Injective(all + {z}, h) && z !in all
    ensures Top(all + {z}, h, k) - Top(all, h, k) <= {z}
    ensures |Top(all, h, k) - Top(all + {z}, h, k)| <= 1
  {
    forall x | x in all ensures |Below(all, h, x)| <= |Below(all + {z}, h, x)| <= |Below(all, h, x)| + 1 {
      BelowWithOne(all, h, x, z);
    }
    var out := Top(all, h, k) - Top(all + {z}, h, k);
    assert forall x :: x in out ==> |Below(all, h, x)| == k - 1;
    forall x, y | x in out && y in out ensures x == y {
      SameRank(all, h, x, y);
    }
    if out != {} {
      var x :| x in out;
      assert out == {x};
    }
  }

  lemma SameRank<T(!new)>(all: set<T>, h: T -> nat, x: T, y: T)
    requires Injective(all, h) && x in all && y in all && |Below(all, h, x)| == |Below(all, h, y)|
    ensures x == y
  {
    if h(x) < h(y) {
      RankGrows(all, h, x, y);
    } else if h(y) < h(x) {
      RankGrows(all, h, y, x);
    }
  }

  lemma RankGrows<T(!new)>(all: set<T>, h: T -> nat, x: T, y: T)
    requires x in all && h(x) < h(y)
    ensures |Below(all, h, x)| < |Below(all, h, y)|
  {
    assert x !in Below(all, h, x);
    SubsetSize(Below(all, h, x) + {x}, Below(all, h, y));
  }

  /**
   * The selection among some of the elements keeps the members it can of the selection among all, and fills up with the
   * top of the others, even when there are fewer than `k` elements to choose from.
   */
  lemma KeepAndFill<T(!new)>(all: set<T>, h: T -> nat, k: nat, kept: set<T>)
    requires Injective(all, h) && kept <= all
    ensures var survivors := Top(all, h, k) * kept;
            Top(kept, h, k) == survivors + Top(kept - survivors, h, k - |survivors|)
  {
    var survivors := Top(all, h, k) * kept;
    forall x ensures x in Top(kept, h, k) <==> x in survivors || x in Top(kept - survivors, h, k - |survivors|) {
      if x in survivors {
        SubsetSize(Below(kept, h, x), Below(all, h, x));
      } else if x in kept {
        BelowOutside(all, h, k, kept, x);
      }
    }
  }

  lemma BelowOutside<T(!new)>(all: set<T>, h: T -> nat, k: nat, kept: set<T>, x: T)
    requires Injective(all, h) && kept <= all && x in kept && x !in Top(all, h, k)
    ensures var survivors := Top(all, h, k) * kept;
            |Below(kept, h, x)| == |survivors| + |Below(kept - survivors, h, x)|
  {
    SelectedBelow(all, h, k, x);
    var survivors := Top(all, h, k) * kept;
    assert Below(kept, h, x) == survivors + Below(kept - survivors, h, x);
  }

  lemma SelectedBelow<T(!new)>(all: set<T>, h: T -> nat, k: nat, x: T)
    requires Injective(all, h) && x in all && x !in Top(all, h, k)
    ensures Top(all, h, k) <= Below(all, h, x)
  {
    forall y | y in Top(all, h, k) ensures h(y) < h(x) {
      if h(x) < h(y) {
        RankGrows(all, h, x, y);
      }
    }
  }

  /**
   * Replacing failed members of a selection by the top of the remaining elements gives the selection that would have
   * been made without the failed ones, even when there are fewer than `k` elements to choose from.
   */
  lemma ReplaceIsReselect<T(!new)>(all: set<T>, h: T -> nat, k: nat, failed: set<T>)
    requires Injective(all, h) && failed <= Top(all, h, k)
    ensures var current := Top(all, h, k);
            (current - failed) + Top(all - current, h, k - (|current| - |failed|)) == Top(all - failed, h, k)
  {
    var current := Top(all, h, k);
    KeepAndFill(all, h, k, all - failed);
    SetParts(all, current, failed);
  }

  lemma SetParts<T>(all: set<T>, current: set<T>, failed: set<T>)
    requires failed <= current <= all
    ensures |current - failed| == |current| - |failed|
    ensures current * (all - failed) == current - failed && (all - failed) - (current - failed) == all - current
  {
    assert current == (current - failed) + failed;
  }

  /**
   * Filling up with `asked` elements, whatever number that is, gives the selection among the kept ones exactly when
   * that is the number missing or there is nothing more to choose from.
   */
  lemma FillIff<T(!new)>(all: set<T>, h: T -> nat, k: nat, kept: set<T>, asked: int)
    requires Injective(all, h) && kept <= all && asked >= k - |Top(all, h, k) * kept|
    ensures var survivors := Top(all, h, k) * kept;
            survivors + Top(kept - survivors, h, asked) == Top(kept, h, k) <==>
            asked == k - |survivors| || |kept - survivors| <= k - |survivors|
  {
    var survivors := Top(all, h, k) * kept;
    var rest, missing := kept - survivors, k - |survivors|;
    KeepAndFill(all, h, k, kept);
    SurvivorsFit(all, h, k, kept);
    if |rest| <= missing {
      AllOnTop(rest, h, missing);
      AllOnTop(rest, h, asked);
    } else if asked > missing {
      var x := OfRank(rest, h, missing);
      assert x in Top(rest, h, asked) && x !in Top(rest, h, missing);
    }
  }

  /** No more than `k` elements are selected. */
  lemma SurvivorsFit<T(!new)>(all: set<T>, h: T -> nat, k: nat, kept: set<T>)
    requires Injective(all, h)
    ensures |Top(all, h, k) * kept| <= k
  {
    var top := Top(all, h, k);
    SubsetSize(top * kept, top);
    if |top| > k {
      var x := OfRank(top, h, k);
      SubsetSize(Below(top, h, x), Below(all, h, x));
    }
  }

  /** Every rank is taken. */
  lemma {:induction false} OfRank<T(!new)>(all: set<T>, h: T -> nat, r: nat) returns (x: T)
    requires Injective(all, h) && r < |all|
    ensures x in all && |Below(all, h, x)| == r
    decreases all
  {
    var z :| z in all;
    var below := Below(all, h, z);
    if |below| == r {
      x := z;
    } else if |below| > r {
      x := OfRank(below, h, r);
      assert Below(below, h, x) == Below(all, h, x);
    } else {
      var above := all - below - {z};
      RankAbove(all, h, z);
      x := OfRank(above, h, r - |below| - 1);
    }
  }

  /** Above an element ranks go on where its own ends. */
  lemma RankAbove<T(!new)>(all: set<T>, h: T -> nat, z: T)
    requires Injective(all, h) && z in all
    ensures var below := Below(all, h, z);
            var above := all - below - {z};
            && |all| == |above| + |below| + 1
            && forall x :: x in above ==> |Below(all, h, x)| == |Below(above, h, x)| + |below| + 1
  {
    var below := Below(all, h, z);
    var above := all - below - {z};
    assert all == above + (below + {z});
    forall x | x in above ensures |Below(all, h, x)| == |Below(above, h, x)| + |below| + 1 {
      assert Below(all, h, x) == Below(above, h, x) + (below + {z});
    }
  }

  /** Asking for as many elements as there are is asking for all of them. */
  lemma AllOnTop<T>(all: set<T>, h: T -> nat, count: int)
    requires |all| <= count
    ensures Top(all, h, count) == all
  {
    forall x | x in all ensures |Below(all, h, x)| < count {
      assert x !in Below(all, h, x);
      SubsetSize(Below(all, h, x) + {x}, all);
    }
  }
}
