/** The files of subordinate ids: two readers of one format, and the range test. */
module SubidFiles {
  import opened Options
  import opened Text
  import opened PyInts
  import opened Paths
  import opened IdMaps

  datatype Entry = Entry(user: string, range: IdRange)

  /** Half-open ranges, by their starts and sizes. */
  predicate RangesOverlap(a: IdRange, b: IdRange) {
    a.first < b.first + b.count && b.first < a.first + a.count
  }

  /** For ranges that are not empty the test says what it should: some id lies in both. */
  lemma {:induction false} OverlapMeansSharedId(a: IdRange, b: IdRange)
    requires a.count > 0 && b.count > 0
    ensures RangesOverlap(a, b) <==> exists h :: InRange(a, h) && InRange(b, h)
  {
    if RangesOverlap(a, b) {
      var h := if a.first <= b.first then b.first else a.first;
      assert InRange(a, h) && InRange(b, h);
    }
  }

  // ----- Lines -----

  /** The three fields of a line, unless it is blank, a comment or malformed. */
  function Fields(raw: string): (r: Option<seq<string>>)
    ensures r.Some? ==> |r.value| == 3
  {
    var line := Strip(raw);
    if line == "" || line[0] == '#' then None
    else
      var parts := SplitOn(line, ':');
      if |parts| != 3 then None else Some(parts)
  }

  /** `int(s)`, which ignores surrounding white space. */
  function IntOf(s: string): Option<int> { PyInt(Strip(s)) }

  function LineEntry(raw: string): Option<Entry> {
    match Fields(raw)
    case None => None
    case Some(parts) =>
      var start, count := IntOf(parts[1]), IntOf(parts[2]);
      if start.None? || count.None? then None else Some(Entry(parts[0], IdRange(start.value, count.value)))
  }

  function Entries(lines: seq<string>): seq<Entry> {
    if lines == [] then []
    else
      var last := LineEntry(lines[|lines| - 1]);
      Entries(lines[..|lines| - 1]) + if last.Some? then [last.value] else []
  }

  /** One user's ranges, in order. */
  function Own(es: seq<Entry>, user: string): seq<IdRange> {
    if es == [] then []
    else
      var last := es[|es| - 1];
      Own(es[..|es| - 1], user) + if last.user == user then [last.range] else []
  }

  lemma OwnOfMore(es: seq<Entry>, e: Entry, user: string)
    ensures Own(es + [e], user) == Own(es, user) + if e.user == user then [e.range] else []
  {
    assert (es + [e])[..|es|] == es;
  }

  lemma FieldsOf(user: string, a: string, b: string)
    requires ':' !in user && ':' !in a && ':' !in b && user != "" && user[0] != '#' && !IsSpace(user[0])
    requires b != "" && !IsSpace(b[|b| - 1])
    ensures Fields(user + (":" + (a + (":" + b)))) == Some([user, a, b])
  {
    var line := user + (":" + (a + (":" + b)));
    assert line[0] == user[0] && line[|line| - 1] == b[|b| - 1];
    assert Strip(line) == line;
    SplitLast(b, ':');
    SplitPart(a, b, ':');
    SplitPart(user, a + (":" + b), ':');
    assert [a] + [b] == [a, b] && [user] + [a, b] == [user, a, b];
  }

  lemma DecIsBare(n: nat)
    ensures ':' !in Dec(n) && Dec(n) != "" && !IsSpace(Dec(n)[0]) && !IsSpace(Dec(n)[|Dec(n)| - 1])
    ensures IntOf(Dec(n)) == Some(n)
  {
    forall i | 0 <= i < |Dec(n)|
      ensures IsDigit(Dec(n)[i]) && !IsSpace(Dec(n)[i]) && Dec(n)[i] != ':'
    {
      assert Digit.Has(Dec(n)[i]);
    }
    assert Strip(Dec(n)) == Dec(n);
    PyIntOfDec(n);
  }

  /** A line that lists a user, a first id and a count is read as that user's range of that start and size. */
  lemma {:induction false} LineRoundTrip(user: string, first: nat, count: nat)
    requires ':' !in user && user != "" && user[0] != '#' && !IsSpace(user[0])
    ensures LineEntry(user + (":" + (Dec(first) + (":" + Dec(count))))) == Some(Entry(user, IdRange(first, count)))
  {
    DecIsBare(first);
    DecIsBare(count);
    FieldsOf(user, Dec(first), Dec(count));
  }

  /** The reader for all users. */
  method ReadAllUsers(lines: seq<string>) returns (ranges: seq<Entry>)
    ensures ranges == Entries(lines)
  {
    ranges := [];
    for i := 0 to |lines|
      invariant ranges == Entries(lines[..i])
    {
      assert lines[..i + 1][..i] == lines[..i];
      var parts := Fields(lines[i]);
      if parts.None? {
        continue;
      }
      var start := IntOf(parts.value[1]);
      if start.None? {
        continue;
      }
      var count := IntOf(parts.value[2]);
      if count.None? {
        continue;
      }
      ranges := ranges + [Entry(parts.value[0], IdRange(start.value, count.value))];
    }
    assert lines[..|lines|] == lines;
  }

  /** What a line adds to a user's ranges. */
  function OwnOfLine(raw: string, user: string): seq<IdRange> {
    match LineEntry(raw)
    case None => []
    case Some(e) => if e.user == user then [e.range] else []
  }

  lemma OwnOfNextLine(lines: seq<string>, i: nat, user: string)
    requires i < |lines|
    ensures Own(Entries(lines[..i + 1]), user) == Own(Entries(lines[..i]), user) + OwnOfLine(lines[i], user)
  {
    assert lines[..i + 1][..i] == lines[..i];
    var entry := LineEntry(lines[i]);
    if entry.Some? {
      OwnOfMore(Entries(lines[..i]), entry.value, user);
    } else {
      assert Entries(lines[..i]) + [] == Entries(lines[..i]);
    }
  }

  /** The separately written reader for one user agrees: it reads that user's part of what the other reads. */
  method ParseForUser(lines: seq<string>, user: string) returns (ranges: seq<IdRange>)
    ensures ranges == Own(Entries(lines), user)
  {
    ranges := [];
    for i := 0 to |lines|
      invariant ranges == Own(Entries(lines[..i]), user)
    {
      OwnOfNextLine(lines, i, user);
      var parts := Fields(lines[i]);
      if parts.None? {
        continue;
      }
      if parts.value[0] != user {
        continue;
      }
      var start := IntOf(parts.value[1]);
      if start.None? {
        continue;
      }
      var count := IntOf(parts.value[2]);
      if count.None? {
        continue;
      }
      ranges := ranges + [IdRange(start.value, count.value)];
    }
    assert lines[..|lines|] == lines;
  }
}
