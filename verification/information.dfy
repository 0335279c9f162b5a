/** The information block of lines 36-44: every retrieved passage cleaned, in retrieval order,
    joined with `"\n"` by `Collectors.joining`. */
module Information {
  import opened Cleaner

  /** Total length of a sequence of strings. */
  function TotalLength(parts: seq<string>): nat {
    if parts == [] then 0 else |parts[0]| + TotalLength(parts[1..])
  }

  /** `t` is a suffix of `s`. */
  predicate EndsWith(s: string, t: string) {
    |t| <= |s| && s[|s| - |t|..] == t
  }

  /** `Collectors.joining(sep)`: the parts in order with `sep` between neighbours. No parts give
      the empty string; otherwise the result begins with the first part and ends with the last. */
  function Join(parts: seq<string>, sep: string): (r: string)
    ensures parts == [] ==> r == []
    ensures parts != [] ==> parts[0] <= r
    ensures parts != [] ==> EndsWith(r, parts[|parts| - 1])
  {
    if parts == [] then []
    else if |parts| == 1 then parts[0]
    else parts[0] + sep + Join(parts[1..], sep)
  }

  /** `n` parts carry `n - 1` separators and nothing else. */
  lemma {:induction false} JoinLength(parts: seq<string>, sep: string)
    requires parts != []
    ensures |Join(parts, sep)| + |sep| == TotalLength(parts) + |parts| * |sep|
  {
    if |parts| > 1 {
      var tail := parts[1..];
      JoinLength(tail, sep);
      assert |Join(parts, sep)| == |parts[0]| + |sep| + |Join(tail, sep)|;
      assert TotalLength(parts) == |parts[0]| + TotalLength(tail);
      MulSucc(|tail|, |sep|, |parts|);
    }
  }

  lemma MulSucc(n: nat, m: nat, n': nat)
    requires n' == n + 1
    ensures n * m + m == n' * m
  {
  }

  /** Joining two non-empty runs of parts puts one separator between them. */
  lemma {:induction false} JoinAppend(a: seq<string>, b: seq<string>, sep: string)
    requires a != [] && b != []
    ensures Join(a + b, sep) == Join(a, sep) + sep + Join(b, sep)
    decreases |a|
  {
    var ab := a + b;
    assert ab[0] == a[0] && |ab| > 1;
    var rest := Join(ab[1..], sep);
    assert Join(ab, sep) == a[0] + sep + rest;
    if |a| == 1 {
      assert ab[1..] == b;
    } else {
      assert ab[1..] == a[1..] + b;
      JoinAppend(a[1..], b, sep);
      var front := Join(a[1..], sep);
      assert rest == front + sep + Join(b, sep);
      assert Join(a, sep) == a[0] + sep + front;
      Regroup3(a[0], sep, front, Join(b, sep));
    }
  }

  /** Concatenation regrouped around the separators. */
  lemma Regroup3(x: string, sep: string, y: string, z: string)
    ensures x + sep + (y + sep + z) == (x + sep + y) + sep + z
  {
  }

  /** Where part `k` starts in the joined string: after the parts before it and one separator
      after each of them. */
  function Offset(parts: seq<string>, sep: string, k: nat): nat
    requires k <= |parts|
  {
    if k == 0 then 0 else |Join(parts[..k], sep)| + |sep|
  }

  /** `c` stands in `p` at offset `o`. */
  predicate StandsAt(p: string, o: nat, c: string) {
    o + |c| <= |p| && p[o..o + |c|] == c
  }

  /** The joined string begins with the first part, followed by a separator if more parts
      follow. */
  lemma JoinHead(parts: seq<string>, sep: string)
    requires parts != []
    ensures StandsAt(Join(parts, sep), 0, parts[0])
    ensures |parts| > 1 ==> StandsAt(Join(parts, sep), |parts[0]|, sep)
  {
    if |parts| > 1 {
      var r := Join(parts, sep);
      var rest := Join(parts[1..], sep);
      assert r == parts[0] + sep + rest;
      assert r[..|parts[0]|] == parts[0];
      assert r[|parts[0]|..|parts[0]| + |sep|] == sep;
    }
  }

  /** Part `k` stands in the joined string at its offset, and a separator follows it unless it
      is the last part: the join keeps every part whole and in order. */
  lemma JoinPartAt(parts: seq<string>, sep: string, k: nat)
    requires k < |parts|
    ensures StandsAt(Join(parts, sep), Offset(parts, sep, k), parts[k])
    ensures k + 1 < |parts| ==> StandsAt(Join(parts, sep), Offset(parts, sep, k) + |parts[k]|, sep)
  {
    if k == 0 {
      JoinHead(parts, sep);
    } else {
      JoinPartLater(parts, sep, k);
      if k + 1 < |parts| {
        JoinSeparatorLater(parts, sep, k);
      }
    }
  }

  /** Part `k`, not the first, stands after the join of the parts before it and a separator. */
  lemma JoinPartLater(parts: seq<string>, sep: string, k: nat)
    requires 0 < k < |parts|
    ensures StandsAt(Join(parts, sep), Offset(parts, sep, k), parts[k])
  {
    JoinSplitAt(parts, sep, k);
    JoinHead(parts[k..], sep);
    ShiftStands(Join(parts, sep), Join(parts[..k], sep) + sep, Join(parts[k..], sep), 0, Offset(parts, sep, k), parts[k]);
  }

  /** A separator follows part `k` when it is neither the first nor the last part. */
  lemma JoinSeparatorLater(parts: seq<string>, sep: string, k: nat)
    requires 0 < k && k + 1 < |parts|
    ensures StandsAt(Join(parts, sep), Offset(parts, sep, k) + |parts[k]|, sep)
  {
    JoinSplitAt(parts, sep, k);
    JoinHead(parts[k..], sep);
    ShiftStands(Join(parts, sep), Join(parts[..k], sep) + sep, Join(parts[k..], sep),
      |parts[k]|, Offset(parts, sep, k) + |parts[k]|, sep);
  }

  /** The joined string splits before part `k` into the join of the parts before it with one
      separator, where part `k` starts, and the join of the rest, which starts with part `k`. */
  lemma JoinSplitAt(parts: seq<string>, sep: string, k: nat)
    requires 0 < k < |parts|
    ensures Join(parts, sep) == Join(parts[..k], sep) + sep + Join(parts[k..], sep)
    ensures Offset(parts, sep, k) == |Join(parts[..k], sep) + sep|
    ensures parts[k..][0] == parts[k]
  {
    assert parts == parts[..k] + parts[k..];
    JoinAppend(parts[..k], parts[k..], sep);
  }

  /** What stands in `tail` stands in `front + tail`, shifted by the length of `front`. */
  lemma ShiftStands(p: string, front: string, tail: string, o: nat, o': nat, c: string)
    requires p == front + tail && o' == |front| + o
    requires StandsAt(tail, o, c)
    ensures StandsAt(p, o', c)
  {
    assert p[o'..o' + |c|] == tail[o..o + |c|];
  }

  /** Every passage cleaned, in order. */
  function CleanAll(passages: seq<string>): (cleaned: seq<string>)
    ensures |cleaned| == |passages|
    ensures forall k :: 0 <= k < |passages| ==> cleaned[k] == Clean(passages[k])
  {
    if passages == [] then [] else [Clean(passages[0])] + CleanAll(passages[1..])
  }

  /** The information block handed to the prompt template. */
  function InformationBlock(passages: seq<string>): (r: string)
    ensures passages == [] ==> r == []
    ensures |passages| == 1 ==> r == Clean(passages[0])
  {
    Join(CleanAll(passages), "\n")
  }

  /** Each cleaned passage (`CleanAll`'s part `k` is `Clean(passages[k])`) stands whole in the
      information block, in retrieval order, and a `\n` separates it from the next one. */
  lemma InformationOrder(passages: seq<string>, k: nat)
    requires k < |passages|
    ensures StandsAt(InformationBlock(passages), Offset(CleanAll(passages), "\n", k), CleanAll(passages)[k])
    ensures k + 1 < |passages| ==>
      StandsAt(InformationBlock(passages), Offset(CleanAll(passages), "\n", k) + |CleanAll(passages)[k]|, "\n")
  {
    JoinPartAt(CleanAll(passages), "\n", k);
  }

  /** One more retrieved passage adds a `\n` and its cleaned text at the end of the block. */
  lemma InformationAppend(passages: seq<string>, p: string)
    requires passages != []
    ensures InformationBlock(passages + [p]) == InformationBlock(passages) + "\n" + Clean(p)
  {
    CleanAllAppend(passages, p);
    JoinAppend(CleanAll(passages), [Clean(p)], "\n");
  }

  /** Cleaning one more passage appends its cleaned text. */
  lemma CleanAllAppend(passages: seq<string>, p: string)
    ensures CleanAll(passages + [p]) == CleanAll(passages) + [Clean(p)]
  {
    var cleaned := CleanAll(passages + [p]);
    var expected := CleanAll(passages) + [Clean(p)];
    assert |cleaned| == |expected|;
    forall k | 0 <= k < |cleaned|
      ensures cleaned[k] == expected[k]
    {
      assert (passages + [p])[k] == if k < |passages| then passages[k] else p;
    }
  }
}
