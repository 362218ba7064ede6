/**
  The report built at the end of `main` (slack-emoji-ranking.go:53-63): the
  tally is copied into a `List` of entries in the map's iteration order,
  the list is sorted, and one line `"<idx> :<name>: <value>\n"` is appended
  per entry, numbered from 1. Go leaves the iteration order of a map
  unspecified, so the copy picks the keys in an arbitrary order.
  */
module Report {

  import opened GoInt
  import opened Wrappers
  import opened Decimal
  import opened Counter
  import opened History
  import opened Ranking

  /** `s` lists the tally `m`: one entry per key, carrying that key's
      count, and nothing else. */
  ghost predicate ListOf(s: seq<Entry>, m: map<string, Int>)
  {
    && (forall k :: 0 <= k < |s| ==> s[k].name in m && s[k].value == m[s[k].name])
    && (forall key :: key in m ==> exists k :: 0 <= k < |s| && s[k].name == key)
    && (forall p, q :: 0 <= p < q < |s| ==> s[p].name != s[q].name)
  }

  // ---------------------------------------------------------------------
  // Counting occurrences

  lemma {:induction false} CountAtMostOne(s: seq<Entry>, x: Entry)
    requires forall p, q :: 0 <= p < q < |s| ==> s[p] != s[q]
    ensures multiset(s)[x] <= 1
  {
    if s != [] {
      var init := s[..|s| - 1];
      assert s == init + [s[|s| - 1]];
      CountAtMostOne(init, x);
      assert s[|s| - 1] !in init;
    }
  }

  lemma CountTwo(s: seq<Entry>, p: int, q: int)
    requires 0 <= p < q < |s| && s[p] == s[q]
    ensures multiset(s)[s[p]] >= 2
  {
    assert s == s[..q] + [s[q]] + s[q + 1..];
    assert s[p] in s[..q];
  }

  /** In a list of a tally, an entry occurs once if it is a key and its
      count, and not at all otherwise. */
  lemma ListOfCount(s: seq<Entry>, m: map<string, Int>, x: Entry)
    requires ListOf(s, m)
    ensures multiset(s)[x] == if x.name in m && m[x.name] == x.value then 1 else 0
  {
    CountAtMostOne(s, x);
    if x.name in m && m[x.name] == x.value {
      var k :| 0 <= k < |s| && s[k].name == x.name;
      assert s[k] == x;
    } else {
      assert x !in s;
    }
  }

  /** Two lists of the same tally hold the same entries. */
  lemma ListOfSameEntries(s: seq<Entry>, t: seq<Entry>, m: map<string, Int>)
    requires ListOf(s, m) && ListOf(t, m)
    ensures multiset(s) == multiset(t)
  {
    forall x ensures multiset(s)[x] == multiset(t)[x] {
      ListOfCount(s, m, x);
      ListOfCount(t, m, x);
    }
  }

  /** Rearranging a list of a tally gives a list of the same tally. */
  lemma ListOfPermutation(s: seq<Entry>, t: seq<Entry>, m: map<string, Int>)
    requires ListOf(s, m)
    requires multiset(s) == multiset(t)
    ensures ListOf(t, m)
  {
    forall k | 0 <= k < |t| ensures t[k].name in m && t[k].value == m[t[k].name] {
      assert t[k] in multiset(s);
    }
    forall key | key in m ensures exists k :: 0 <= k < |t| && t[k].name == key {
      var i :| 0 <= i < |s| && s[i].name == key;
      assert s[i] in multiset(t);
    }
    forall p, q | 0 <= p < q < |t| ensures t[p].name != t[q].name {
      if t[p].name == t[q].name {
        CountTwo(t, p, q);
        ListOfCount(s, m, t[p]);
        assert false;
      }
    }
  }

  /** Whatever order the map hands its keys out in, the sorted list is the
      same: it depends only on the tally. */
  lemma ListOfUnique(s: seq<Entry>, t: seq<Entry>, m: map<string, Int>)
    requires ListOf(s, m) && Sorted(s)
    requires ListOf(t, m) && Sorted(t)
    ensures s == t
  {
    ListOfSameEntries(s, t, m);
    SortedUnique(s, t);
  }

  // ---------------------------------------------------------------------
  // Building the list (slack-emoji-ranking.go:53-57)

  /** Halfway through the copy: `order` lists the keys of `m` already
      visited, and `rest` holds the keys still to come. */
  ghost predicate Listed(order: seq<Entry>, rest: set<string>, m: map<string, Int>)
  {
    && rest <= m.Keys
    && |order| + |rest| == |m|
    && (forall k :: 0 <= k < |order| ==> order[k].name in m && order[k].name !in rest && order[k].value == m[order[k].name])
    && (forall key :: key in m && key !in rest ==> exists k :: 0 <= k < |order| && order[k].name == key)
    && (forall p, q :: 0 <= p < q < |order| ==> order[p].name != order[q].name)
  }

  /** Visiting one more key keeps the copy in step. */
  lemma ListedStep(order: seq<Entry>, rest: set<string>, m: map<string, Int>, key: string)
    requires Listed(order, rest, m) && key in rest
    ensures Listed(order + [Entry(key, m[key])], rest - {key}, m)
  {
    var order', rest' := order + [Entry(key, m[key])], rest - {key};
    assert |rest'| == |rest| - 1;
    assert forall k :: 0 <= k < |order| ==> order'[k] == order[k];
    forall n | n in m && n !in rest' ensures exists k :: 0 <= k < |order'| && order'[k].name == n {
      if n == key {
        assert order'[|order|].name == n;
      } else {
        var k :| 0 <= k < |order| && order[k].name == n;
        assert order'[k] == order[k];
      }
    }
  }

  /** Copies the tally into a list, one entry per key, visiting the keys
      in whatever order the map hands them out. */
  method BuildList(m: map<string, Int>) returns (order: seq<Entry>)
    ensures ListOf(order, m)
    ensures |order| == |m|
  {
    order := [];
    var rest := m.Keys;
    while rest != {}
      invariant Listed(order, rest, m)
      decreases |rest|
    {
      var key :| key in rest;
      ListedStep(order, rest, m, key);
      order := order + [Entry(key, m[key])];
      rest := rest - {key};
    }
  }

  // ---------------------------------------------------------------------
  // Rendering (slack-emoji-ranking.go:60-63)

  /** One report line without its line break: the position in decimal, a
      space, the name between colons, a space, and the total in decimal. */
  function LineBody(idx: int, e: Entry): string
  {
    FormatInt(idx) + " :" + e.name + ": " + FormatInt(e.value)
  }

  function Line(idx: int, e: Entry): string
  {
    LineBody(idx, e) + "\n"
  }

  /** The lines for `s`, the first one numbered `first`. */
  function Lines(s: seq<Entry>, first: int): string
    decreases |s|
  {
    if s == [] then "" else Line(first, s[0]) + Lines(s[1..], first + 1)
  }

  /** The text of the report for a sorted list. */
  function ReportText(s: seq<Entry>): string
  {
    Lines(s, 1)
  }

  lemma {:induction false} LinesSnoc(s: seq<Entry>, e: Entry, first: int)
    ensures Lines(s + [e], first) == Lines(s, first) + Line(first + |s|, e)
    decreases |s|
  {
    if s == [] {
      assert [e][1..] == [];
    } else {
      var t := s + [e];
      assert t[0] == s[0] && t[1..] == s[1..] + [e];
      LinesSnoc(s[1..], e, first + 1);
      Regroup(Line(first, s[0]), Lines(s[1..], first + 1), Line(first + |s|, e));
    }
  }

  /** The rendering loop: one numbered line per entry, in list order. */
  method Render(a: array<Entry>) returns (text: string)
    ensures text == ReportText(a[..])
  {
    text := "";
    var idx := 0;
    while idx < a.Length
      invariant 0 <= idx <= a.Length
      invariant text == Lines(a[..idx], 1)
    {
      LinesSnoc(a[..idx], a[idx], 1);
      assert a[..idx + 1] == a[..idx] + [a[idx]];
      text := text + Line(idx + 1, a[idx]);
      idx := idx + 1;
    }
    assert a[..idx] == a[..];
  }

  // ---------------------------------------------------------------------
  // Reading a report back

  /** The first position of `c` in `s`, or `|s|`. */
  function IndexOf(s: string, c: char): (r: nat)
    ensures r <= |s|
    ensures r < |s| ==> s[r] == c
    ensures forall k :: 0 <= k < r ==> s[k] != c
  {
    if s == [] then 0
    else if s[0] == c then 0
    else 1 + IndexOf(s[1..], c)
  }

  /** The last position of `c` in `s`, or -1. */
  function LastIndexOf(s: string, c: char): (r: int)
    ensures -1 <= r < |s|
    ensures r >= 0 ==> s[r] == c
    ensures forall k :: r < k < |s| ==> s[k] != c
  {
    if s == [] then -1
    else if s[|s| - 1] == c then |s| - 1
    else LastIndexOf(s[..|s| - 1], c)
  }

  /** A position holding `c` with no `c` before it is the first one. */
  lemma IndexOfAt(s: string, c: char, i: int)
    requires 0 <= i < |s| && s[i] == c
    requires forall k :: 0 <= k < i ==> s[k] != c
    ensures IndexOf(s, c) == i
  {
  }

  /** A position holding `c` with no `c` after it is the last one. */
  lemma LastIndexOfAt(s: string, c: char, i: int)
    requires 0 <= i < |s| && s[i] == c
    requires forall k :: i < k < |s| ==> s[k] != c
    ensures LastIndexOf(s, c) == i
  {
  }

  /** Cuts a text into its lines; a last piece without `'\n'` is a line too. */
  function SplitLines(text: string): seq<string>
    decreases |text|
  {
    if text == [] then []
    else
      var i := IndexOf(text, '\n');
      if i == |text| then [text] else [text[..i]] + SplitLines(text[i + 1..])
  }

  lemma SplitLinesCons(l: string, rest: string)
    requires '\n' !in l
    ensures SplitLines(l + "\n" + rest) == [l] + SplitLines(rest)
  {
    var t := l + "\n" + rest;
    assert forall k :: 0 <= k < |l| ==> t[k] == l[k];
    IndexOfAt(t, '\n', |l|);
    assert t[..|l|] == l && t[|l| + 1..] == rest;
  }

  /** Cuts one line `"<idx> :<name>: <value>"` into the text of the
      number, the name and the text of the value. The number ends at the
      first space and the value starts after the last one, so a name may
      contain spaces and colons. */
  function Fields(line: string): Option<(string, string, string)>
  {
    Cut(line, IndexOf(line, ' '), LastIndexOf(line, ' '))
  }

  /** The three fields of `line` when the first space is at `i` and the
      last at `j`: the name must sit between two colons. */
  function Cut(line: string, i: int, j: int): Option<(string, string, string)>
    requires 0 <= i <= |line| && -1 <= j < |line|
  {
    if j <= i then None
    else
      var mid := line[i + 1..j];
      if |mid| < 2 || mid[0] != ':' || mid[|mid| - 1] != ':' then None
      else Some((line[..i], mid[1..|mid| - 1], line[j + 1..]))
  }

  /** Reads one line into its number and its entry. */
  function ParseLine(line: string): Option<(int, Entry)>
  {
    match Fields(line)
    case None => None
    case Some((p, name, v)) =>
      var idx, value := ParseInt(p), ParseInt(v);
      if idx.Some? && value.Some? && MinInt <= value.value <= MaxInt
      then Some((idx.value, Entry(name, value.value)))
      else None
  }

  /** Reads numbered lines, the first numbered `first`. */
  function ParseLines(lines: seq<string>, first: int): Option<seq<Entry>>
    decreases |lines|
  {
    if lines == [] then Some([])
    else
      var head, rest := ParseLine(lines[0]), ParseLines(lines[1..], first + 1);
      if head.Some? && head.value.0 == first && rest.Some?
      then Some([head.value.1] + rest.value)
      else None
  }

  /** Reads a whole report back into its ranked list. */
  function ParseReport(text: string): Option<seq<Entry>>
  {
    ParseLines(SplitLines(text), 1)
  }

  /** Reaction names never contain a line break. */
  predicate NoLineBreaks(s: seq<Entry>)
  {
    forall k :: 0 <= k < |s| ==> '\n' !in s[k].name
  }

  /** A `c` that ends `head`, followed by a text without `c`, is the last. */
  lemma LastIndexOfSuffix(head: string, v: string, c: char)
    requires |head| > 0 && head[|head| - 1] == c && c !in v
    ensures LastIndexOf(head + v, c) == |head| - 1
  {
    var line := head + v;
    forall k | |head| <= k < |line| ensures line[k] != c {
      assert line[k] == v[k - |head|];
    }
    LastIndexOfAt(line, c, |head| - 1);
  }

  /** A `c` that starts `rest`, after a text without `c`, is the first. */
  lemma IndexOfPrefix(p: string, rest: string, c: char)
    requires c !in p && |rest| > 0 && rest[0] == c
    ensures IndexOf(p + rest, c) == |p|
  {
    var line := p + rest;
    forall k | 0 <= k < |p| ensures line[k] != c {
      assert line[k] == p[k];
    }
    IndexOfAt(line, c, |p|);
  }

  /** In a line built from a number, a name and a value without spaces,
      the first space follows the number. */
  lemma FirstSpaceOfLine(p: string, name: string, v: string)
    requires ' ' !in p
    ensures IndexOf(p + " :" + name + ": " + v, ' ') == |p|
  {
    var rest := " :" + name + ": " + v;
    assert p + " :" + name + ": " + v == p + rest;
    IndexOfPrefix(p, rest, ' ');
  }

  /** In such a line the last space precedes the value. */
  lemma LastSpaceOfLine(p: string, name: string, v: string)
    requires ' ' !in v
    ensures LastIndexOf(p + " :" + name + ": " + v, ' ') == |p| + |name| + 3
  {
    var head := p + " :" + name + ": ";
    assert head[|head| - 1] == ' ';
    LastIndexOfSuffix(head, v, ' ');
  }

  /** Such a line is cut back into those three. */
  lemma FieldsOfLine(p: string, name: string, v: string)
    requires ' ' !in p && ' ' !in v
    ensures Fields(p + " :" + name + ": " + v) == Some((p, name, v))
  {
    var line := p + " :" + name + ": " + v;
    FirstSpaceOfLine(p, name, v);
    LastSpaceOfLine(p, name, v);
    var i, j := |p|, |p| + |name| + 3;
    assert line[i + 1] == ':' && line[j - 1] == ':';
    assert line[..i] == p;
    assert line[i + 2..j - 1] == name;
    assert line[j + 1..] == v;
    CutAt(line, i, j);
  }

  /** With a colon after the first space and one before the last, the
      name is what lies between them. */
  lemma CutAt(line: string, i: int, j: int)
    requires 0 <= i && i + 3 <= j < |line| && line[i + 1] == ':' && line[j - 1] == ':'
    ensures Cut(line, i, j) == Some((line[..i], line[i + 2..j - 1], line[j + 1..]))
  {
    var mid := line[i + 1..j];
    var inner := mid[1..|mid| - 1];
    forall k | 0 <= k < |inner| ensures inner[k] == line[i + 2..j - 1][k] {
      assert inner[k] == mid[k + 1] == line[i + 2 + k];
    }
    assert inner == line[i + 2..j - 1];
  }

  /** One rendered line reads back as its number and entry. */
  lemma ParseLineBody(idx: int, e: Entry)
    ensures ParseLine(LineBody(idx, e)) == Some((idx, e))
  {
    FieldsOfLine(FormatInt(idx), e.name, FormatInt(e.value));
    ParseFormatInt(idx);
    ParseFormatInt(e.value);
  }

  /** The lines of `s` without their line breaks. */
  function Bodies(s: seq<Entry>, first: int): seq<string>
    decreases |s|
  {
    if s == [] then [] else [LineBody(first, s[0])] + Bodies(s[1..], first + 1)
  }

  /** Splitting the text at its line breaks gives the rendered lines back. */
  lemma {:induction false} SplitRendered(s: seq<Entry>, first: int)
    requires NoLineBreaks(s)
    ensures SplitLines(Lines(s, first)) == Bodies(s, first)
    decreases |s|
  {
    if s != [] {
      var body := LineBody(first, s[0]);
      assert '\n' !in s[0].name;
      assert '\n' !in body;
      var rest := Lines(s[1..], first + 1);
      assert Lines(s, first) == body + "\n" + rest;
      SplitLinesCons(body, rest);
      assert NoLineBreaks(s[1..]) by {
        forall k | 0 <= k < |s| - 1 ensures '\n' !in s[1..][k].name {
          assert s[1..][k] == s[k + 1];
        }
      }
      SplitRendered(s[1..], first + 1);
    }
  }

  lemma ParseLinesCons(line: string, lines: seq<string>, first: int, e: Entry, rest: seq<Entry>)
    requires ParseLine(line) == Some((first, e))
    requires ParseLines(lines, first + 1) == Some(rest)
    ensures ParseLines([line] + lines, first) == Some([e] + rest)
  {
    assert ([line] + lines)[0] == line && ([line] + lines)[1..] == lines;
  }

  /** Reading the rendered lines gives the entries back. */
  lemma {:induction false} ParseBodies(s: seq<Entry>, first: int)
    ensures ParseLines(Bodies(s, first), first) == Some(s)
    decreases |s|
  {
    if s != [] {
      ParseBodies(s[1..], first + 1);
      ParseBodiesStep(s, first);
    }
  }

  lemma ParseBodiesStep(s: seq<Entry>, first: int)
    requires s != []
    requires ParseLines(Bodies(s[1..], first + 1), first + 1) == Some(s[1..])
    ensures ParseLines(Bodies(s, first), first) == Some(s)
  {
    var line, lines := LineBody(first, s[0]), Bodies(s[1..], first + 1);
    assert Bodies(s, first) == [line] + lines;
    assert ParseLine(line) == Some((first, s[0])) by {
      ParseLineBody(first, s[0]);
    }
    ParseLinesCons(line, lines, first, s[0], s[1..]);
    assert s == [s[0]] + s[1..];
  }

  /** The report gives back exactly the ranked list it was rendered from:
      line k is `k :name: value` for the k-th entry, and nothing else is in
      the text. */
  lemma ReportRoundTrip(s: seq<Entry>)
    requires NoLineBreaks(s)
    ensures ParseReport(ReportText(s)) == Some(s)
  {
    SplitRendered(s, 1);
    ParseBodies(s, 1);
  }

  /** The report depends only on the tally, not on the map's iteration
      order. */
  lemma ReportDeterministic(s: seq<Entry>, t: seq<Entry>, m: map<string, Int>)
    requires ListOf(s, m) && Sorted(s)
    requires ListOf(t, m) && Sorted(t)
    ensures ReportText(s) == ReportText(t)
  {
    ListOfUnique(s, t, m);
  }

  // ---------------------------------------------------------------------
  // The end of `main`

  /** slack-emoji-ranking.go:53-63: copy the tally into a list, sort it,
      and render it. The result is the one sorted list of the tally, and
      the text is its report. */
  method MakeReport(total: SafeCounter) returns (order: seq<Entry>, text: string)
    ensures ListOf(order, total.v) && Sorted(order)
    ensures forall s :: ListOf(s, total.v) && Sorted(s) ==> s == order
    ensures text == ReportText(order)
  {
    var built := BuildList(total.v);
    var a := new Entry[|built|](i requires 0 <= i < |built| => built[i]);
    assert a[..] == built;
    Sort(a);
    ListOfPermutation(built, a[..], total.v);
    text := Render(a);
    order := a[..];
    forall s | ListOf(s, total.v) && Sorted(s) ensures s == order {
      ListOfUnique(s, order, total.v);
    }
  }

  /** slack-emoji-ranking.go:46-63: an empty tally, every channel's history
      folded in, then the report. */
  method Run(histories: seq<HistoryResponse>) returns (order: seq<Entry>, text: string)
    ensures ListOf(order, Tallied(map[], AllReactions(histories))) && Sorted(order)
    ensures forall s :: ListOf(s, Tallied(map[], AllReactions(histories))) && Sorted(s) ==> s == order
    ensures text == ReportText(order)
  {
    var total := new SafeCounter();
    TallyChannels(histories, total);
    order, text := MakeReport(total);
  }

  /** With no channel at all, the report is empty. */
  lemma NoChannelsReport(order: seq<Entry>)
    requires ListOf(order, Tallied(map[], AllReactions([])))
    ensures order == [] && ReportText(order) == ""
  {
    var none: map<string, Int> := map[];
    assert Tallied(none, AllReactions([])) == none;
    ListOfSameEntries(order, [], none);
    assert |order| == |multiset(order)| == 0;
  }
}
