/**
  The text encoding of the ledger kept in a channel topic: one line
  `<@ID>🏆xN` per user, lines joined by a newline. Parsing skips every line
  that does not match the whole grammar and lets a later line for the same
  id overwrite an earlier one.
*/
module Codec {
  import opened Results
  import opened Ledger

  /** The trophy emoji U+1F3C6 that separates the mention from the count. */
  const TROPHY: char := '\U{1F3C6}'

  /** `\d` of a JavaScript regular expression without the `u` flag: an ASCII digit. */
  predicate IsDigit(c: char) {
    '0' <= c <= '9'
  }

  predicate IsDigits(s: string) {
    forall i :: 0 <= i < |s| ==> IsDigit(s[i])
  }

  /** What `\d+` matches: a non-empty run of ASCII digits. Discord user ids
      are such numerals. */
  predicate IsNumeral(s: string) {
    |s| > 0 && IsDigits(s)
  }

  /** `parseInt(s, 10)` on a string of ASCII digits. */
  function Value(s: string): nat
    requires IsDigits(s)
  {
    if s == [] then 0 else 10 * Value(s[..|s| - 1]) + (s[|s| - 1] as int - '0' as int)
  }

  function DigitChar(d: nat): (c: char)
    requires d < 10
    ensures IsDigit(c)
  {
    ('0' as int + d) as char
  }

  /** The decimal text `${n}` of a natural number. */
  function Numeral(n: nat): (s: string)
    ensures IsNumeral(s)
    ensures s[0] == '0' ==> s == "0"
  {
    if n < 10 then [DigitChar(n)] else Numeral(n / 10) + [DigitChar(n % 10)]
  }

  /** Reading back the decimal text of a count gives the count. */
  lemma {:induction false} ValueOfNumeral(n: nat)
    ensures Value(Numeral(n)) == n
  {
    if n >= 10 {
      var s := Numeral(n);
      assert s[..|s| - 1] == Numeral(n / 10);
      ValueOfNumeral(n / 10);
    }
  }

  /** The longest prefix of `s` made of ASCII digits: what the greedy `\d+`
      consumes before the rest of the pattern. */
  function DigitRun(s: string): (p: string)
    ensures IsDigits(p) && p <= s
    ensures |p| < |s| ==> !IsDigit(s[|p|])
  {
    if s == [] || !IsDigit(s[0]) then [] else [s[0]] + DigitRun(s[1..])
  }

  lemma {:induction false} DigitRunOf(digits: string, rest: string)
    requires IsDigits(digits)
    requires rest == [] || !IsDigit(rest[0])
    ensures DigitRun(digits + rest) == digits
  {
    if digits != [] {
      assert (digits + rest)[1..] == digits[1..] + rest;
      DigitRunOf(digits[1..], rest);
    } else {
      assert digits + rest == rest;
    }
  }

  /** The part of a ledger line after the id: `>🏆x` and the count text. */
  function Tail(count: string): string {
    ['>', TROPHY, 'x'] + count
  }

  /** A ledger line: `<@`, an optional `!`, the id, then the tail. */
  function Render(bang: bool, id: string, count: string): string {
    "<@" + ((if bang then "!" else "") + (id + Tail(count)))
  }

  /** `>🏆x(\d+)$` after the id. */
  function MatchTail(id: string, tail: string): Option<Entry> {
    if |tail| >= 4 && tail[..3] == ['>', TROPHY, 'x'] && IsDigits(tail[3..])
    then Some(Entry(id, Value(tail[3..])))
    else None
  }

  /** `(\d+)` followed by the tail: the greedy digit run must be non-empty. */
  function MatchId(s: string): Option<Entry> {
    var id := DigitRun(s);
    if id == [] then None else MatchTail(id, s[|id|..])
  }

  /** The regular expression `^<@!?(\d+)>🏆x(\d+)$` applied to one line:
      the id and the parsed count when the whole line matches, None otherwise. */
  function MatchLine(line: string): Option<Entry> {
    if |line| < 2 || line[..2] != "<@" then None
    else if |line| > 2 && line[2] == '!' then MatchId(line[3..])
    else MatchId(line[2..])
  }

  lemma MatchTailOf(id: string, count: string)
    requires IsNumeral(count)
    ensures MatchTail(id, Tail(count)) == Some(Entry(id, Value(count)))
  {
    var t := Tail(count);
    assert t[..3] == ['>', TROPHY, 'x'];
    assert t[3..] == count;
  }

  lemma MatchIdOf(id: string, count: string)
    requires IsNumeral(id) && IsNumeral(count)
    ensures MatchId(id + Tail(count)) == Some(Entry(id, Value(count)))
  {
    var t := Tail(count);
    assert t[0] == '>';
    DigitRunOf(id, t);
    assert (id + t)[|id|..] == t;
    MatchTailOf(id, count);
  }

  /** Every line of the grammar matches, with the id it mentions and the value
      of its count (leading zeros included). */
  lemma MatchLineComplete(bang: bool, id: string, count: string)
    requires IsNumeral(id) && IsNumeral(count)
    ensures MatchLine(Render(bang, id, count)) == Some(Entry(id, Value(count)))
  {
    var rest := id + Tail(count);
    var line := Render(bang, id, count);
    assert line[..2] == "<@";
    MatchIdOf(id, count);
    if bang {
      assert line[2] == '!' && line[3..] == rest;
    } else {
      assert line[2..] == rest;
      assert line[2] == id[0];
    }
  }

  lemma MatchIdSound(s: string)
    requires MatchId(s).Some?
    ensures IsNumeral(MatchId(s).value.userId)
    ensures exists count: string ::
              IsNumeral(count) && s == MatchId(s).value.userId + Tail(count)
              && MatchId(s).value.count == Value(count)
  {
    var id := DigitRun(s);
    var tail := s[|id|..];
    var count := tail[3..];
    assert tail == tail[..3] + count;
    assert s == id + Tail(count);
  }

  /** A line that starts with `<@` is `<@`, the optional `!`, and the rest. */
  lemma SplitPrefix(line: string, bang: bool)
    requires |line| >= 2 && line[..2] == "<@"
    requires bang ==> |line| > 2 && line[2] == '!'
    ensures line == "<@" + ((if bang then "!" else "") + (if bang then line[3..] else line[2..]))
  {
    assert line == line[..2] + line[2..];
    if bang {
      assert line[2..] == [line[2]] + line[3..];
    }
  }

  /** Only lines of the grammar match: a match is a rendered line whose count
      text has the matched value. */
  lemma MatchLineSound(line: string)
    requires MatchLine(line).Some?
    ensures IsNumeral(MatchLine(line).value.userId)
    ensures exists bang: bool, count: string ::
              IsNumeral(count) && line == Render(bang, MatchLine(line).value.userId, count)
              && MatchLine(line).value.count == Value(count)
  {
    var bang := |line| > 2 && line[2] == '!';
    var rest := if bang then line[3..] else line[2..];
    assert MatchLine(line) == MatchId(rest);
    MatchIdSound(rest);
    var e := MatchId(rest).value;
    var count :| IsNumeral(count) && rest == e.userId + Tail(count) && e.count == Value(count);
    SplitPrefix(line, bang);
    assert line == Render(bang, e.userId, count);
  }

  predicate NoNewline(s: string) {
    '\n' !in s
  }

  /** Pieces that each hold no newline, as `split('\n')` returns them. */
  predicate SingleLines(lines: seq<string>) {
    forall i :: 0 <= i < |lines| ==> NoNewline(lines[i])
  }

  lemma SingleLinesAppend(a: seq<string>, b: seq<string>)
    requires SingleLines(a) && SingleLines(b)
    ensures SingleLines(a + b)
  {
    forall i | 0 <= i < |a + b| ensures NoNewline((a + b)[i]) {
      if i >= |a| { assert (a + b)[i] == b[i - |a|]; }
    }
  }

  /** `lines.join('\n')`. */
  function Join(lines: seq<string>): string {
    if |lines| == 0 then ""
    else if |lines| == 1 then lines[0]
    else lines[0] + "\n" + Join(lines[1..])
  }

  /** Position of the first newline in `s`, or `|s|` when there is none. */
  function LineEnd(s: string): (i: nat)
    ensures i <= |s| && (i < |s| ==> s[i] == '\n')
    ensures forall j :: 0 <= j < i ==> s[j] != '\n'
  {
    if s == [] || s[0] == '\n' then 0 else 1 + LineEnd(s[1..])
  }

  /** `s.split('\n')`: at least one piece, none holding a newline, and joining
      the pieces gives back `s`. */
  function Split(s: string): (lines: seq<string>)
    ensures |lines| >= 1
    ensures SingleLines(lines)
    ensures Join(lines) == s
    decreases |s|
  {
    var i := LineEnd(s);
    if i == |s| then [s]
    else
      var rest := Split(s[i + 1..]);
      assert s == s[..i] + "\n" + s[i + 1..];
      assert ([s[..i]] + rest)[1..] == rest;
      [s[..i]] + rest
  }

  /** Splitting a line, a newline and more text gives the line, then the
      pieces of the rest. */
  lemma SplitCons(first: string, rest: string)
    requires NoNewline(first)
    ensures Split(first + "\n" + rest) == [first] + Split(rest)
  {
    var s := first + "\n" + rest;
    assert s[|first|] == '\n';
    assert forall j :: 0 <= j < |first| ==> s[j] == first[j];
    assert LineEnd(s) == |first|;
    assert s[..|first|] == first && s[|first| + 1..] == rest;
  }

  lemma SingleLinesTail(lines: seq<string>)
    requires lines != [] && SingleLines(lines)
    ensures NoNewline(lines[0]) && SingleLines(lines[1..])
  {
    forall i | 0 <= i < |lines| - 1 ensures NoNewline(lines[1..][i]) {
      assert lines[1..][i] == lines[i + 1];
    }
  }

  /** Splitting joined lines that hold no newline gives the lines back. */
  lemma {:induction false} SplitJoin(lines: seq<string>)
    requires |lines| >= 1
    requires SingleLines(lines)
    ensures Split(Join(lines)) == lines
  {
    var first, rest := lines[0], lines[1..];
    SingleLinesTail(lines);
    if |lines| == 1 {
      assert LineEnd(first) == |first|;
    } else {
      SplitJoin(rest);
      assert Join(lines) == first + "\n" + Join(rest);
      SplitCons(first, Join(rest));
      assert lines == [first] + rest;
    }
  }

  /** One step of the `forEach`: a matching line assigns its count to its id. */
  function ParseLine(awards: Awards, line: string): Awards {
    match MatchLine(line)
    case None => awards
    case Some(e) => Put(awards, e.userId, e.count)
  }

  function ParseLines(awards: Awards, lines: seq<string>): Awards
    decreases |lines|
  {
    if lines == [] then awards else ParseLines(ParseLine(awards, lines[0]), lines[1..])
  }

  /** A ledger as the topic can hold it: every id a numeral, none twice. */
  predicate WellFormed(awards: Awards) {
    Distinct(awards) && forall i :: 0 <= i < |awards| ==> IsNumeral(awards[i].userId)
  }

  lemma {:induction false} ParseLinesWellFormed(awards: Awards, lines: seq<string>)
    requires WellFormed(awards)
    ensures WellFormed(ParseLines(awards, lines))
    decreases |lines|
  {
    if lines != [] {
      var m := MatchLine(lines[0]);
      if m.Some? {
        MatchLineSound(lines[0]);
      }
      ParseLinesWellFormed(ParseLine(awards, lines[0]), lines[1..]);
    }
  }

  /** `parseAwards`: an empty topic gives the empty ledger, and a parsed
      ledger is always well formed. */
  function ParseAwards(topic: string): (awards: Awards)
    ensures topic == "" ==> awards == []
    ensures WellFormed(awards)
  {
    if topic == "" then []
    else
      ParseLinesWellFormed([], Split(topic));
      ParseLines([], Split(topic))
  }

  /** The entry a line contributes: none, or the one it matches. */
  function MatchOf(line: string): seq<Entry> {
    match MatchLine(line)
    case None => []
    case Some(e) => [e]
  }

  /** The entries of the matching lines, in line order. */
  function Matches(lines: seq<string>): seq<Entry> {
    if lines == [] then [] else MatchOf(lines[0]) + Matches(lines[1..])
  }

  /** Assigning an entry and then reading on is, for the map view, appending it. */
  lemma PutThen(awards: Awards, e: Entry, rest: Awards)
    requires Distinct(awards)
    ensures ToMap(Put(awards, e.userId, e.count) + rest) == ToMap(awards + ([e] + rest))
  {
    ToMapSnoc(awards, e);
    ToMapSameSuffix(Put(awards, e.userId, e.count), awards + [e], rest);
    assert awards + ([e] + rest) == awards + [e] + rest;
  }

  lemma ParseLineMap(awards: Awards, line: string, rest: Awards)
    requires Distinct(awards)
    ensures Distinct(ParseLine(awards, line))
    ensures ToMap(ParseLine(awards, line) + rest) == ToMap(awards + (MatchOf(line) + rest))
  {
    match MatchLine(line) {
      case None =>
        assert [] + rest == rest;
      case Some(e) =>
        PutThen(awards, e, rest);
    }
  }

  lemma {:induction false} ParseLinesMap(awards: Awards, lines: seq<string>)
    requires Distinct(awards)
    ensures ToMap(ParseLines(awards, lines)) == ToMap(awards + Matches(lines))
    decreases |lines|
  {
    if lines == [] {
      assert awards + Matches(lines) == awards;
    } else {
      var next := ParseLine(awards, lines[0]);
      var rest := Matches(lines[1..]);
      ParseLineMap(awards, lines[0], rest);
      ParseLinesMap(next, lines[1..]);
    }
  }

  /** The ledger a topic decodes to is the map of its matching lines, a later
      line for the same id overriding an earlier one. */
  lemma ParseAwardsMap(topic: string)
    ensures ToMap(ParseAwards(topic)) == ToMap(Matches(Split(topic)))
  {
    if topic == "" {
      assert Split(topic) == [""];
      assert MatchLine("") == None;
    } else {
      ParseLinesMap([], Split(topic));
      assert [] + Matches(Split(topic)) == Matches(Split(topic));
    }
  }

  lemma {:induction false} ParseLinesSkip(awards: Awards, before: seq<string>, line: string, after: seq<string>)
    requires MatchLine(line) == None
    ensures ParseLines(awards, before + [line] + after) == ParseLines(awards, before + after)
    decreases |before|
  {
    if before == [] {
      assert before + [line] + after == [line] + after;
      assert ([line] + after)[1..] == after;
      assert before + after == after;
    } else {
      ParseLinesSkip(ParseLine(awards, before[0]), before[1..], line, after);
      assert (before + [line] + after)[1..] == before[1..] + [line] + after;
      assert (before + after)[1..] == before[1..] + after;
    }
  }

  /** Parsing the join of single lines is parsing the lines themselves. */
  lemma ParseJoined(lines: seq<string>)
    requires |lines| >= 1 && SingleLines(lines)
    ensures ParseAwards(Join(lines)) == ParseLines([], lines)
  {
    SplitJoin(lines);
    if Join(lines) == "" {
      assert Split("") == [""];
      assert MatchLine("") == None;
    }
  }

  /** A line that does not match the grammar contributes nothing: the topic
      with it parses exactly as the topic without it. */
  lemma NonMatchingLineIgnored(before: seq<string>, line: string, after: seq<string>)
    requires SingleLines(before) && SingleLines(after)
    requires NoNewline(line) && MatchLine(line) == None
    ensures ParseAwards(Join(before + [line] + after)) == ParseAwards(Join(before + after))
  {
    SingleLinesAppend(before, [line]);
    SingleLinesAppend(before + [line], after);
    ParseJoined(before + [line] + after);
    ParseLinesSkip([], before, line, after);
    if before + after != [] {
      SingleLinesAppend(before, after);
      ParseJoined(before + after);
    }
  }

  /** The line `serializeAwards` writes for one entry. */
  function FormatLine(e: Entry): string {
    Render(false, e.userId, Numeral(e.count))
  }

  function FormatLines(awards: Awards): (lines: seq<string>)
    ensures |lines| == |awards|
    ensures forall i :: 0 <= i < |awards| ==> lines[i] == FormatLine(awards[i])
  {
    if awards == [] then [] else [FormatLine(awards[0])] + FormatLines(awards[1..])
  }

  /** `serializeAwards`: one line per entry, in ledger order, joined by newlines. */
  function SerializeAwards(awards: Awards): string {
    Join(FormatLines(awards))
  }

  lemma FormatLineShape(e: Entry)
    requires IsNumeral(e.userId)
    ensures NoNewline(FormatLine(e)) && FormatLine(e) != ""
    ensures MatchLine(FormatLine(e)) == Some(e)
  {
    var line := FormatLine(e);
    var count := Numeral(e.count);
    assert line == "<@" + e.userId + ">" + [TROPHY] + "x" + count;
    assert forall i :: 0 <= i < |line| ==> line[i] != '\n' by {
      forall i | 0 <= i < |line| ensures line[i] != '\n' {
        if 2 <= i < 2 + |e.userId| { assert line[i] == e.userId[i - 2]; }
        else if i >= 5 + |e.userId| { assert line[i] == count[i - 5 - |e.userId|]; }
      }
    }
    MatchLineComplete(false, e.userId, count);
    ValueOfNumeral(e.count);
  }

  /** In a well-formed ledger the next entry's id is new to the entries before
      it, so assigning it appends it. */
  lemma PutNext(awards: Awards, k: nat)
    requires WellFormed(awards) && k < |awards|
    ensures Put(awards[..k], awards[k].userId, awards[k].count) == awards[..k + 1]
  {
    var e := awards[k];
    ToMapKeys(awards[..k]);
    assert e.userId !in Ids(awards[..k]);
    assert awards[..k + 1] == awards[..k] + [e];
  }

  lemma {:induction false} ParseFormatted(awards: Awards, k: nat)
    requires WellFormed(awards) && k <= |awards|
    ensures ParseLines(awards[..k], FormatLines(awards)[k..]) == awards
    decreases |awards| - k
  {
    var lines := FormatLines(awards);
    if k == |awards| {
      assert awards[..k] == awards;
    } else {
      var e := awards[k];
      FormatLineShape(e);
      assert lines[k..][0] == FormatLine(e);
      assert lines[k..][1..] == lines[k + 1..];
      PutNext(awards, k);
      ParseFormatted(awards, k + 1);
    }
  }

  /** Round trip: a well-formed ledger survives serialisation and parsing
      unchanged, entry order included. */
  lemma ParseSerialize(awards: Awards)
    requires WellFormed(awards)
    ensures ParseAwards(SerializeAwards(awards)) == awards
  {
    var lines := FormatLines(awards);
    if awards != [] {
      forall i | 0 <= i < |lines| ensures NoNewline(lines[i]) && lines[i] != "" {
        FormatLineShape(awards[i]);
      }
      SplitJoin(lines);
      assert SerializeAwards(awards) != "" by {
        if |lines| > 1 { assert |Join(lines)| >= |lines[0]|; }
      }
      ParseFormatted(awards, 0);
      assert awards[..0] == [] && lines[0..] == lines;
    }
  }

  lemma AppendWellFormed(awards: Awards, e: Entry)
    requires WellFormed(awards) && IsNumeral(e.userId) && e.userId !in Ids(awards)
    ensures WellFormed(awards + [e])
  {
    var r := awards + [e];
    forall i, j | 0 <= i < j < |r| ensures r[i].userId != r[j].userId {
      if j == |awards| {
        assert r[i] in awards;
      }
    }
  }

  /** Taking one key out of a map leaves a smaller map that gives the whole
      map back once the key is put again. */
  lemma RemoveKey(m: map<string, nat>, k: string)
    requires k in m
    ensures |m - {k}| < |m| && k !in m - {k} && (m - {k})[k := m[k]] == m
  {
    var rest := m - {k};
    assert rest.Keys == m.Keys - {k};
    assert |m.Keys - {k}| == |m.Keys| - 1;
  }

  /** Appending an entry for an id the ledger does not hold keeps it well
      formed and adds the id to the map view. */
  lemma ListingStep(prefix: Awards, rest: map<string, nat>, e: Entry)
    requires WellFormed(prefix) && ToMap(prefix) == rest
    requires IsNumeral(e.userId) && e.userId !in rest
    ensures WellFormed(prefix + [e]) && ToMap(prefix + [e]) == rest[e.userId := e.count]
  {
    ToMapKeys(prefix);
    AppendWellFormed(prefix, e);
    ToMapSnoc(prefix, e);
  }

  /** Some well-formed ledger lists the entries of a map. */
  ghost function Listing(m: map<string, nat>): (awards: Awards)
    requires forall k :: k in m ==> IsNumeral(k)
    ensures WellFormed(awards) && ToMap(awards) == m
    decreases |m|
  {
    if m == map[] then []
    else
      var k :| k in m;
      RemoveKey(m, k);
      var prefix := Listing(m - {k});
      ListingStep(prefix, m - {k}, Entry(k, m[k]));
      prefix + [Entry(k, m[k])]
  }

  /** Round trip on the map view: any map from numeral ids to counts is
      recovered from the topic its listing serialises to. */
  lemma MapRoundTrip(m: map<string, nat>)
    requires forall k :: k in m ==> IsNumeral(k)
    ensures ToMap(ParseAwards(SerializeAwards(Listing(m)))) == m
  {
    ParseSerialize(Listing(m));
  }
}
