/**
  Folding channel histories into the tally: GetChannelHistory
  (slack-emoji-ranking.go:69-100) and the channel loop of `main`
  (slack-emoji-ranking.go:46-51). The HTTP request and the JSON decoding are
  outside the model: a history arrives as an already decoded response, or
  as the error that the request or the decoder reported.
  */
module History {

  import opened GoInt
  import opened Wrappers
  import opened Counter

  /** One emoji on a message; `count` is how many users applied it. */
  datatype Reaction = Reaction(name: string, count: Int)

  /** A message; only its reactions take part in the tally. */
  datatype Message = Message(reactions: seq<Reaction>)

  /** What fetching one channel's history produced. */
  datatype HistoryResponse =
    | History(messages: seq<Message>)
    | FetchFailed(error: string)

  /** All reactions of `msgs`, message by message, in order: a reaction
      occurs in the result exactly when it occurs on one of the messages. */
  function Reactions(msgs: seq<Message>): (rs: seq<Reaction>)
    ensures forall r :: r in rs <==> exists i :: 0 <= i < |msgs| && r in msgs[i].reactions
  {
    if msgs == [] then [] else Reactions(msgs[..|msgs| - 1]) + msgs[|msgs| - 1].reactions
  }

  /** The reactions a response contributes: none when the fetch failed. */
  function Contribution(resp: HistoryResponse): seq<Reaction>
  {
    match resp
    case History(msgs) => Reactions(msgs)
    case FetchFailed(_) => []
  }

  /** The reactions contributed by all channels, in channel order. */
  function AllReactions(hs: seq<HistoryResponse>): seq<Reaction>
  {
    if hs == [] then [] else AllReactions(hs[..|hs| - 1]) + Contribution(hs[|hs| - 1])
  }

  /** The names that occur in `rs`. */
  function NamesIn(rs: seq<Reaction>): set<string>
  {
    set r | r in rs :: r.name
  }

  /** The exact sum of the counts of the reactions in `rs` named `n`. */
  function SumOf(rs: seq<Reaction>, n: string): int
  {
    if rs == [] then 0
    else SumOf(rs[..|rs| - 1], n) + (if rs[|rs| - 1].name == n then rs[|rs| - 1].count else 0)
  }

  /** The tally after one `Inc(r.name, r.count)`. */
  function Bump(t: map<string, Int>, r: Reaction): map<string, Int>
  {
    t[r.name := Wrap(Get(t, r.name) + r.count)]
  }

  /** The tally that results from `base` once every reaction of `rs` has
      been added to it, in order, by one `Inc` each. */
  function Tallied(base: map<string, Int>, rs: seq<Reaction>): map<string, Int>
  {
    if rs == [] then base
    else
      Bump(Tallied(base, rs[..|rs| - 1]), rs[|rs| - 1])
  }

  lemma {:induction false} SumOfAbsent(rs: seq<Reaction>, n: string)
    requires n !in NamesIn(rs)
    ensures SumOf(rs, n) == 0
  {
    if rs != [] {
      var p := rs[..|rs| - 1];
      assert forall r :: r in p ==> r in rs;
      SumOfAbsent(p, n);
    }
  }

  lemma {:induction false} NamesInSnoc(rs: seq<Reaction>, r: Reaction)
    ensures NamesIn(rs + [r]) == NamesIn(rs) + {r.name}
  {
    var rs' := rs + [r];
    forall n | n in NamesIn(rs') ensures n in NamesIn(rs) + {r.name} {
      var x :| x in rs' && x.name == n;
      if x != r {
        assert x in rs;
      }
    }
    forall n | n in NamesIn(rs) ensures n in NamesIn(rs') {
      var x :| x in rs && x.name == n;
      assert x in rs';
    }
    assert r in rs';
  }

  /** The tally holds the old names and exactly the names that occur. */
  lemma {:induction false} TalliedKeys(base: map<string, Int>, rs: seq<Reaction>)
    ensures Tallied(base, rs).Keys == base.Keys + NamesIn(rs)
  {
    if rs != [] {
      var p := rs[..|rs| - 1];
      assert rs == p + [rs[|rs| - 1]];
      NamesInSnoc(p, rs[|rs| - 1]);
      TalliedKeys(base, p);
    }
  }

  /** Each name's count grows by exactly the sum of the counts of the
      reactions bearing it, wrapped to a Go `int`; a name no reaction
      carries reads as before. */
  lemma {:induction false} TalliedCount(base: map<string, Int>, rs: seq<Reaction>, n: string)
    ensures Get(Tallied(base, rs), n) == Wrap(Get(base, n) + SumOf(rs, n))
  {
    if rs == [] {
      WrapOfInt(Get(base, n));
    } else {
      var p, r := rs[..|rs| - 1], rs[|rs| - 1];
      TalliedCount(base, p, n);
      BumpCount(Tallied(base, p), r, n, Get(base, n) + SumOf(p, n));
    }
  }

  /** One `Inc` adds the reaction's count to its own name only. */
  lemma {:induction false} BumpCount(t: map<string, Int>, r: Reaction, n: string, exact: int)
    requires Get(t, n) == Wrap(exact)
    ensures Get(Bump(t, r), n) == Wrap(exact + if r.name == n then r.count else 0)
  {
    if r.name == n {
      WrapAdd(exact, r.count);
    }
  }

  /** A name that no reaction carries keeps its entry, or its absence. */
  lemma {:induction false} TalliedUnchanged(base: map<string, Int>, rs: seq<Reaction>, n: string)
    requires n !in NamesIn(rs)
    ensures n in Tallied(base, rs) <==> n in base
    ensures n in base ==> Tallied(base, rs)[n] == base[n]
  {
    TalliedKeys(base, rs);
    TalliedCount(base, rs, n);
    SumOfAbsent(rs, n);
    WrapOfInt(Get(base, n));
  }

  /** When the total stays within Go's `int`, it is the exact arithmetic sum
      of the previous count and all the counts for that name: no update is
      lost. */
  lemma {:induction false} TalliedExact(base: map<string, Int>, rs: seq<Reaction>, n: string)
    requires n in base || n in NamesIn(rs)
    requires MinInt <= Get(base, n) + SumOf(rs, n) <= MaxInt
    ensures n in Tallied(base, rs)
    ensures Tallied(base, rs)[n] == Get(base, n) + SumOf(rs, n)
  {
    TalliedKeys(base, rs);
    TalliedCount(base, rs, n);
    WrapOfInt(Get(base, n) + SumOf(rs, n));
  }

  /** One more reaction is one more `Inc`. */
  lemma {:induction false} TalliedSnoc(base: map<string, Int>, rs: seq<Reaction>, r: Reaction)
    ensures Tallied(base, rs + [r]) == Bump(Tallied(base, rs), r)
  {
    assert (rs + [r])[..|rs|] == rs;
  }

  /** Tallying two batches one after the other is tallying them together. */
  lemma {:induction false} TalliedAppend(base: map<string, Int>, rs1: seq<Reaction>, rs2: seq<Reaction>)
    ensures Tallied(Tallied(base, rs1), rs2) == Tallied(base, rs1 + rs2)
    decreases |rs2|
  {
    if rs2 == [] {
      assert rs1 + rs2 == rs1;
    } else {
      var p, r := rs2[..|rs2| - 1], rs2[|rs2| - 1];
      assert rs2 == p + [r];
      assert rs1 + rs2 == (rs1 + p) + [r];
      TalliedAppend(base, rs1, p);
      TalliedSnoc(base, rs1 + p, r);
    }
  }

  lemma {:induction false} PrefixSnoc<T>(s: seq<T>, j: nat)
    requires j < |s|
    ensures s[..j + 1] == s[..j] + [s[j]]
  {
  }

  lemma SplitAt<T>(s: seq<T>, i: int)
    requires 0 <= i < |s|
    ensures s == s[..i] + [s[i]] + s[i + 1..]
  {
    assert s[..i + 1] == s[..i] + [s[i]];
    assert s == s[..i + 1] + s[i + 1..];
  }

  /** The reactions of the first `i + 1` messages. */
  lemma {:induction false} ReactionsPrefix(msgs: seq<Message>, i: nat)
    requires i < |msgs|
    ensures Reactions(msgs[..i + 1]) == Reactions(msgs[..i]) + msgs[i].reactions
  {
    assert msgs[..i + 1][..i] == msgs[..i];
  }

  /** The reactions of two runs of channels are those of each, in order. */
  lemma {:induction false} AllReactionsAppend(hs1: seq<HistoryResponse>, hs2: seq<HistoryResponse>)
    ensures AllReactions(hs1 + hs2) == AllReactions(hs1) + AllReactions(hs2)
    decreases |hs2|
  {
    if hs2 == [] {
      assert hs1 + hs2 == hs1;
    } else {
      var p, last := hs2[..|hs2| - 1], hs2[|hs2| - 1];
      assert hs2 == p + [last];
      Regroup(hs1, p, [last]);
      AllReactionsAppend(hs1, p);
      AllReactionsSnoc(hs1 + p, last);
      AllReactionsSnoc(p, last);
      Regroup(AllReactions(hs1), AllReactions(p), Contribution(last));
    }
  }

  lemma AllReactionsSnoc(hs: seq<HistoryResponse>, h: HistoryResponse)
    ensures AllReactions(hs + [h]) == AllReactions(hs) + Contribution(h)
  {
    assert (hs + [h])[..|hs|] == hs;
  }

  /** Concatenation regroups. */
  lemma Regroup<T>(a: seq<T>, b: seq<T>, c: seq<T>)
    ensures a + (b + c) == (a + b) + c
  {
  }

  /** A channel whose fetch failed adds nothing: the channels contribute
      the same reactions, and so the same tally, as the others alone. */
  lemma FailedChannelIgnored(hs: seq<HistoryResponse>, i: int)
    requires 0 <= i < |hs| && hs[i].FetchFailed?
    ensures AllReactions(hs) == AllReactions(hs[..i] + hs[i + 1..])
  {
    SplitAt(hs, i);
    SkipFailed(hs[..i], hs[i], hs[i + 1..]);
  }

  lemma SkipFailed(pre: seq<HistoryResponse>, failed: HistoryResponse, post: seq<HistoryResponse>)
    requires failed.FetchFailed?
    ensures AllReactions(pre + [failed] + post) == AllReactions(pre + post)
  {
    var upto := pre + [failed];
    AllReactionsAppend(upto, post);
    assert AllReactions(upto) == AllReactions(pre) by {
      assert upto[..|upto| - 1] == pre;
    }
    AllReactionsAppend(pre, post);
  }

  /** The inner loop of GetChannelHistory (slack-emoji-ranking.go:93-96):
      each reaction of one message is added to the tally by its count, in
      order, with `Inc`. */
  method AddReactions(rs: seq<Reaction>, total: SafeCounter)
    modifies total
    ensures total.v == Tallied(old(total.v), rs)
  {
    ghost var v0 := total.v;
    var j := 0;
    while j < |rs|
      invariant 0 <= j <= |rs|
      invariant total.v == Tallied(v0, rs[..j])
    {
      TalliedSnoc(v0, rs[..j], rs[j]);
      PrefixSnoc(rs, j);
      total.Inc(rs[j].name, rs[j].count);
      j := j + 1;
    }
    assert rs[..j] == rs;
  }

  /** GetChannelHistory (slack-emoji-ranking.go:69-100): on a failed fetch
      the error comes back and the tally is untouched; otherwise every
      reaction of every message is added, by its count, with `Inc`. */
  method GetChannelHistory(resp: HistoryResponse, total: SafeCounter) returns (err: Option<string>)
    modifies total
    ensures err == (if resp.FetchFailed? then Some(resp.error) else None)
    ensures total.v == Tallied(old(total.v), Contribution(resp))
  {
    if resp.FetchFailed? {
      return Some(resp.error);
    }
    var msgs := resp.messages;
    ghost var v0 := total.v;
    var i := 0;
    while i < |msgs|
      invariant 0 <= i <= |msgs|
      invariant total.v == Tallied(v0, Reactions(msgs[..i]))
    {
      AddReactions(msgs[i].reactions, total);
      TalliedAppend(v0, Reactions(msgs[..i]), msgs[i].reactions);
      ReactionsPrefix(msgs, i);
      i := i + 1;
    }
    assert msgs[..i] == msgs;
    return None;
  }

  /** The channel loop of `main` (slack-emoji-ranking.go:48-51): each
      channel's history is folded into the same tally, and a failed fetch
      is ignored. */
  method TallyChannels(histories: seq<HistoryResponse>, total: SafeCounter)
    modifies total
    ensures total.v == Tallied(old(total.v), AllReactions(histories))
  {
    ghost var v0 := total.v;
    var c := 0;
    while c < |histories|
      invariant 0 <= c <= |histories|
      invariant total.v == Tallied(v0, AllReactions(histories[..c]))
    {
      var _ := GetChannelHistory(histories[c], total);
      TalliedAppend(v0, AllReactions(histories[..c]), Contribution(histories[c]));
      assert histories[..c + 1][..c] == histories[..c];
      c := c + 1;
    }
    assert histories[..c] == histories;
  }
}
