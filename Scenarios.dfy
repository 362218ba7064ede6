/**
  A worked run of the whole pipeline: two channels, `general` with the
  reactions `+1` (3 users) and `tada` (1 user) on one message, and `dev`
  with `+1` (2 users).
  */
module Scenarios {

  import opened GoInt
  import opened Decimal
  import opened Counter
  import opened History
  import opened Ranking
  import opened Report

  function TwoChannels(): seq<HistoryResponse>
  {
    [ History([Message([Reaction("+1", 3), Reaction("tada", 1)])]),
      History([Message([Reaction("+1", 2)])]) ]
  }

  /** The reactions of both channels, in channel order. */
  lemma TwoChannelsReactions()
    ensures AllReactions(TwoChannels()) == [Reaction("+1", 3), Reaction("tada", 1), Reaction("+1", 2)]
  {
    var h := TwoChannels();
    assert h[..1][..0] == [] && h[..|h| - 1] == h[..1];
    assert Reactions(h[0].messages) == [Reaction("+1", 3), Reaction("tada", 1)];
    assert Reactions(h[1].messages) == [Reaction("+1", 2)];
  }

  /** The two channels add up to `+1` 5 and `tada` 1. */
  lemma TwoChannelsTally()
    ensures Tallied(map[], AllReactions(TwoChannels())) == map["+1" := 5, "tada" := 1]
  {
    TwoChannelsReactions();
    var rs := [Reaction("+1", 3), Reaction("tada", 1), Reaction("+1", 2)];
    assert rs[..2][..1] == rs[..1] && rs[..1][..0] == [] && rs[..|rs| - 1] == rs[..2];
    assert Tallied(map[], rs[..1]) == map["+1" := 3];
    assert Tallied(map[], rs[..2]) == map["+1" := 3, "tada" := 1];
  }

  /** Any sorted list of that tally, whatever order the map yielded its
      keys in, is `+1` then `tada`, and the report reads
      `1 :+1: 5` and `2 :tada: 1`. */
  lemma TwoChannelsReport(s: seq<Entry>)
    requires ListOf(s, map["+1" := 5, "tada" := 1]) && Sorted(s)
    ensures s == [Entry("+1", 5), Entry("tada", 1)]
    ensures ReportText(s) == "1 :+1: 5\n2 :tada: 1\n"
  {
    var m := map["+1" := 5, "tada" := 1];
    var t := [Entry("+1", 5), Entry("tada", 1)];
    assert t[0].name == "+1" && t[1].name == "tada";
    assert ListOf(t, m);
    assert Sorted(t);
    ListOfUnique(s, t, m);
    TwoLineText();
  }

  lemma TwoLineText()
    ensures ReportText([Entry("+1", 5), Entry("tada", 1)]) == "1 :+1: 5\n2 :tada: 1\n"
  {
    var t := [Entry("+1", 5), Entry("tada", 1)];
    assert FormatInt(1) == "1" && FormatInt(2) == "2" && FormatInt(5) == "5";
    assert Line(1, t[0]) == "1 :+1: 5\n";
    assert Line(2, t[1]) == "2 :tada: 1\n";
    assert t[1..][1..] == [];
    assert Lines(t[1..], 2) == Line(2, t[1]);
  }

  /** Equal totals rank by name: `eyes` before `tada`. */
  lemma TieReport(s: seq<Entry>)
    requires ListOf(s, map["tada" := 2, "eyes" := 2]) && Sorted(s)
    ensures s == [Entry("eyes", 2), Entry("tada", 2)]
  {
    var m := map["tada" := 2, "eyes" := 2];
    var t := [Entry("eyes", 2), Entry("tada", 2)];
    assert t[0].name == "eyes" && t[1].name == "tada";
    assert ListOf(t, m);
    assert LexLess("eyes", "tada");
    assert Sorted(t);
    ListOfUnique(s, t, m);
  }

  /** Whatever `Report.Run` returns for the two channels is this report. */
  lemma TwoChannelsRun(order: seq<Entry>, text: string)
    requires ListOf(order, Tallied(map[], AllReactions(TwoChannels()))) && Sorted(order)
    requires text == ReportText(order)
    ensures text == "1 :+1: 5\n2 :tada: 1\n"
  {
    TwoChannelsTally();
    TwoChannelsReport(order);
  }
}
