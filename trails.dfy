/** The trail list of the trails screen (offline-activity-assistant/app/trails.tsx):
    the backend's free-text answer is cut at numbered markers, each piece
    becomes a trail whose fields are read line by line, and the built-in
    trails stand in when the availability verdict is `false`, the answer is
    not text or nothing could be parsed. The verdict is never `false`, so
    with the network down the screen shows the offline notice of `ask`
    parsed as trails. */
module TrailList {
  import opened Wrappers
  import opened Text
  import opened JsonValues
  import opened Transport
  import opened QueryService

  datatype Trail = Trail(id: string, name: string, difficulty: string, length: string, description: string)

  /** `OFFLINE_TRAILS`. */
  const OfflineTrails := [
    Trail("1", "Pine Ridge Trail", "Moderate", "5.2 miles", "A scenic trail through pine forests with mountain views."),
    Trail("2", "Lakeside Loop", "Easy", "2.8 miles", "Flat trail circling the lake with several fishing spots."),
    Trail("3", "Eagle Summit", "Hard", "8.5 miles", "Challenging hike to the mountain peak with panoramic views.")
  ]

  const TrailsPrompt := "List 5 hiking trails with their names, difficulty levels, lengths, and brief descriptions."
  const Unknown := "Unknown"

  // ---------------------------------------------------------------
  // `trailText.split(/\d+\.\s/)`
  // ---------------------------------------------------------------

  /** `\d`: an ASCII digit. */
  predicate IsDigit(c: char)
  {
    '0' <= c <= '9'
  }

  /** End of the run of digits that starts at `q`. */
  function DigitRunEnd(s: string, q: nat): (e: nat)
    requires q <= |s|
    ensures q <= e <= |s|
    ensures forall k :: q <= k < e ==> IsDigit(s[k])
    ensures e < |s| ==> !IsDigit(s[e])
    decreases |s| - q
  {
    if q < |s| && IsDigit(s[q]) then DigitRunEnd(s, q + 1) else q
  }

  /** Where a match of `\d+\.\s` starting at `q` ends, if one starts there.
      `\d+` is greedy and a shorter run would leave a digit where the dot
      must be, so only the full run of digits can match. */
  function MarkerEnd(s: string, q: nat): Option<nat>
    requires q <= |s|
  {
    if q < |s| && IsDigit(s[q]) then
      var e := DigitRunEnd(s, q);
      if e + 1 < |s| && s[e] == '.' && IsJsSpace(s[e + 1]) then Some(e + 2) else None
    else None
  }

  /** A numbered marker: digits, a dot, one whitespace character. */
  predicate IsMarker(m: string)
  {
    && |m| >= 3
    && (forall k :: 0 <= k < |m| - 2 ==> IsDigit(m[k]))
    && m[|m| - 2] == '.' && IsJsSpace(m[|m| - 1])
  }

  lemma MarkerEndIsMarker(s: string, q: nat)
    requires q <= |s| && MarkerEnd(s, q).Some?
    ensures q < MarkerEnd(s, q).value <= |s| && IsMarker(s[q..MarkerEnd(s, q).value])
  {
  }

  /** The leftmost match at or after `from`, as (start, end). */
  function FindMarker(s: string, from: nat): (r: Option<(nat, nat)>)
    requires from <= |s|
    ensures r.Some? ==> from <= r.value.0 < r.value.1 <= |s| && MarkerEnd(s, r.value.0) == Some(r.value.1)
    ensures r.Some? ==> forall p :: from <= p < r.value.0 ==> MarkerEnd(s, p).None?
    ensures r.None? ==> forall p :: from <= p <= |s| ==> MarkerEnd(s, p).None?
    decreases |s| - from
  {
    if from == |s| then None
    else
      match MarkerEnd(s, from)
      case Some(e) => Some((from, e))
      case None => FindMarker(s, from + 1)
  }

  /** The split: the text between consecutive matches, scanning on from the
      end of each match. */
  function SplitMarkers(s: string): (parts: seq<string>)
    ensures |parts| >= 1
    decreases |s|
  {
    match FindMarker(s, 0)
    case None => [s]
    case Some((q, e)) => [s[..q]] + SplitMarkers(s[e..])
  }

  /** The matches the split removes, in order (what `match` with the
      global flag would list). */
  function MarkersOf(s: string): (ms: seq<string>)
    ensures forall k :: 0 <= k < |ms| ==> IsMarker(ms[k])
    ensures |ms| + 1 == |SplitMarkers(s)|
    decreases |s|
  {
    match FindMarker(s, 0)
    case None => []
    case Some((q, e)) =>
      MarkerEndIsMarker(s, q);
      [s[q..e]] + MarkersOf(s[e..])
  }

  /** The parts with the markers put back between them. */
  function Interleave(parts: seq<string>, markers: seq<string>): string
    requires |parts| == |markers| + 1
    decreases |markers|
  {
    if markers == [] then parts[0]
    else parts[0] + markers[0] + Interleave(parts[1..], markers[1..])
  }

  lemma InterleaveCons(p: string, m: string, parts: seq<string>, markers: seq<string>)
    requires |parts| == |markers| + 1
    ensures Interleave([p] + parts, [m] + markers) == p + m + Interleave(parts, markers)
  {
    assert ([p] + parts)[1..] == parts && ([m] + markers)[1..] == markers;
  }

  /** Splitting only removes markers: putting the removed markers back
      between the parts gives the text again. */
  lemma {:induction false} SplitMarkersRejoin(s: string)
    ensures Interleave(SplitMarkers(s), MarkersOf(s)) == s
    decreases |s|
  {
    var found := FindMarker(s, 0);
    if found.Some? {
      var (q, e) := found.value;
      SplitMarkersRejoin(s[e..]);
      RejoinStep(s, q, e);
    } else {
      assert SplitMarkers(s) == [s] && MarkersOf(s) == [];
    }
  }

  /** The inductive step: rejoining the rest after the leftmost marker
      rejoins the whole text. */
  lemma RejoinStep(s: string, q: nat, e: nat)
    requires FindMarker(s, 0) == Some((q, e))
    requires Interleave(SplitMarkers(s[e..]), MarkersOf(s[e..])) == s[e..]
    ensures Interleave(SplitMarkers(s), MarkersOf(s)) == s
  {
    SplitStep(s, q, e);
    InterleaveCons(s[..q], s[q..e], SplitMarkers(s[e..]), MarkersOf(s[e..]));
    SliceJoin(s, q, e);
  }

  lemma SliceJoin(s: string, q: nat, e: nat)
    requires q <= e <= |s|
    ensures s[..q] + s[q..e] + s[e..] == s
  {
  }

  /** One step of the split at the leftmost marker. */
  lemma SplitStep(s: string, q: nat, e: nat)
    requires FindMarker(s, 0) == Some((q, e))
    ensures q < e <= |s|
    ensures SplitMarkers(s) == [s[..q]] + SplitMarkers(s[e..])
    ensures MarkersOf(s) == [s[q..e]] + MarkersOf(s[e..])
  {
  }

  /** A text without a marker is not split. */
  lemma NoMarkerNoSplit(s: string)
    requires forall p :: 0 <= p <= |s| ==> MarkerEnd(s, p).None?
    ensures SplitMarkers(s) == [s]
  {
  }

  /** `.filter(Boolean)` on strings: the empty ones are dropped. */
  function NonEmpty(parts: seq<string>): (r: seq<string>)
    ensures forall k :: 0 <= k < |r| ==> r[k] != "" && r[k] in parts
    ensures r == [] <==> forall k :: 0 <= k < |parts| ==> parts[k] == ""
    ensures |parts| == 1 ==> r == (if parts[0] == "" then [] else parts)
    decreases |parts|
  {
    if parts == [] then []
    else (if parts[0] == "" then [] else [parts[0]]) + NonEmpty(parts[1..])
  }

  /** The filter works part by part: filtering a concatenation filters
      each side, so every non-empty part is kept, in order. */
  lemma {:induction false} NonEmptyAppend(a: seq<string>, b: seq<string>)
    ensures NonEmpty(a + b) == NonEmpty(a) + NonEmpty(b)
    decreases |a|
  {
    if a == [] {
      assert a + b == b;
    } else {
      assert (a + b)[0] == a[0];
      assert (a + b)[1..] == a[1..] + b;
      NonEmptyAppend(a[1..], b);
    }
  }

  /** `trailText.split(/\d+\.\s/).filter(Boolean)`. */
  function Entries(text: string): seq<string>
  {
    NonEmpty(SplitMarkers(text))
  }

  // ---------------------------------------------------------------
  // One entry
  // ---------------------------------------------------------------

  /** `entry.trim().split('\n').filter(Boolean)`. */
  function EntryLines(entry: string): seq<string>
  {
    NonEmpty(SplitOn(Trim(entry), '\n'))
  }

  /** `line.replace(/^[^:]+:\s*\/, '')`: at least one character before the
      first colon, then the colon and the whitespace after it, are removed. */
  function StripLabel(line: string): string
  {
    if ':' in line && IndexOf(line, ':') > 0 then TrimStart(line[IndexOf(line, ':') + 1..]) else line
  }

  /** A line without a colon, or starting with one, keeps its text. */
  lemma StripLabelKeeps(line: string)
    requires ':' !in line || line[0] == ':'
    ensures StripLabel(line) == line
  {
  }

  /** Otherwise what is left is the text after the first colon with its
      leading whitespace removed. */
  lemma StripLabelRemoves(line: string)
    requires ':' in line && line[0] != ':'
    ensures var c := IndexOf(line, ':');
      var r := StripLabel(line);
      && 0 < c && ':' !in line[..c]
      && |r| < |line| - c && r == line[|line| - |r|..]
      && (r != "" ==> !IsJsSpace(r[0]))
      && (forall k :: c + 1 <= k < |line| - |r| ==> IsJsSpace(line[k]))
  {
    var c := IndexOf(line, ':');
    assert c != 0 by { assert line[c] == ':'; }
    var rest := line[c + 1..];
    var r := TrimStart(rest);
    assert StripLabel(line) == r;
    assert r == rest[|rest| - |r|..] && |rest| == |line| - (c + 1);
    TrimmedTail(line, c + 1, r);
  }

  /** A suffix `r` of the tail of `line` from `from` on, with only
      whitespace before it in that tail, is a suffix of `line` with only
      whitespace between `from` and its start. */
  lemma TrimmedTail(line: string, from: nat, r: string)
    requires from + |r| <= |line|
    requires r == line[from..][|line| - from - |r|..]
    requires forall k :: 0 <= k < |line| - from - |r| ==> IsJsSpace(line[from..][k])
    ensures r == line[|line| - |r|..]
    ensures forall k :: from <= k < |line| - |r| ==> IsJsSpace(line[k])
  {
    var n := |line| - from - |r|;
    TailOfTail(line, from, n);
    SpacesOfTail(line, from, 0, n);
  }

  /** `lines[0]?.replace(...) || \`Trail ${index + 1}\``. */
  function TrailName(lines: seq<string>, index: nat): (r: string)
    ensures r != ""
    ensures lines != [] && StripLabel(lines[0]) != "" ==> r == StripLabel(lines[0])
    ensures lines == [] || StripLabel(lines[0]) == "" ==> r == "Trail " + NatToString(index + 1)
  {
    var fallback := "Trail " + NatToString(index + 1);
    if lines == [] then fallback
    else
      var name := StripLabel(lines[0]);
      if name != "" then name else fallback
  }

  /** `line.split(':')[1]?.trim()`. */
  function ColonField(line: string): Option<string>
  {
    var parts := SplitOn(line, ':');
    if |parts| >= 2 then Some(Trim(parts[1])) else None
  }

  /** The field exists exactly when the line has a colon, and it is the
      trimmed text between the first colon and the next one (or the end). */
  lemma ColonFieldBetweenColons(line: string)
    ensures ColonField(line).Some? <==> ':' in line
    ensures ':' in line ==>
      var rest := line[IndexOf(line, ':') + 1..];
      ColonField(line) == Some(Trim(if ':' in rest then rest[..IndexOf(rest, ':')] else rest))
  {
    SplitOnFirst(line, ':');
    if ':' in line {
      SplitOnFirst(line[IndexOf(line, ':') + 1..], ':');
    }
  }

  /** What the `forEach` body does with one line: the if/else-if chain
      tests "difficulty" first, then "length" or "distance", and only then
      whether the line is free of colons. A keyword line whose field is
      missing or blank changes nothing, and neither does any other line
      with a colon. */
  datatype LineKind = DifficultyLine(value: string) | LengthLine(value: string) | DescriptionLine(text: string) | OtherLine

  function Classify(line: string): LineKind
  {
    var lower := ToLower(line);
    if Contains(lower, "difficulty") then
      var v := ColonField(line);
      if v.Some? && v.value != "" then DifficultyLine(v.value) else OtherLine
    else if Contains(lower, "length") || Contains(lower, "distance") then
      var v := ColonField(line);
      if v.Some? && v.value != "" then LengthLine(v.value) else OtherLine
    else if ':' !in line then DescriptionLine(line)
    else OtherLine
  }

  /** The order of the tests: a line naming both a difficulty and a length
      counts as a difficulty line; a colon-free line naming a length is
      not description. */
  lemma ClassifyOrder(line: string)
    ensures Contains(ToLower(line), "difficulty") ==> !Classify(line).LengthLine? && !Classify(line).DescriptionLine?
    ensures Classify(line).DescriptionLine? <==>
      && !Contains(ToLower(line), "difficulty")
      && !Contains(ToLower(line), "length") && !Contains(ToLower(line), "distance")
      && ':' !in line
    ensures Classify(line).DescriptionLine? ==> Classify(line).text == line
    ensures Classify(line).DifficultyLine? || Classify(line).LengthLine? ==>
      ColonField(line).Some? && Classify(line).value == ColonField(line).value != ""
  {
  }

  /** `xs.map(f)`. */
  function MapSeq<T, U>(xs: seq<T>, f: T -> U): (r: seq<U>)
    ensures |r| == |xs|
  {
    seq(|xs|, k requires 0 <= k < |xs| => f(xs[k]))
  }

  lemma MapSeqSnoc<T, U>(xs: seq<T>, f: T -> U, i: nat)
    requires i < |xs|
    ensures MapSeq(xs[..i + 1], f) == MapSeq(xs[..i], f) + [f(xs[i])]
  {
  }

  function KindsOf(lines: seq<string>): seq<LineKind>
  {
    MapSeq(lines, Classify)
  }

  /** The three locals updated by the `forEach`. */
  datatype LineFields = LineFields(difficulty: string, length: string, description: string)

  const NoFields := LineFields(Unknown, Unknown, "")

  /** One pass of the `forEach` body. */
  function Apply(f: LineFields, kind: LineKind): LineFields
  {
    match kind
    case DifficultyLine(v) => f.(difficulty := v)
    case LengthLine(v) => f.(length := v)
    case DescriptionLine(line) => f.(description := f.description + line + " ")
    case OtherLine => f
  }

  /** The `forEach` over all lines, from the initial values. */
  function Scan(kinds: seq<LineKind>): LineFields
    decreases |kinds|
  {
    if kinds == [] then NoFields
    else Apply(Scan(kinds[..|kinds| - 1]), kinds[|kinds| - 1])
  }

  lemma ScanSnoc(kinds: seq<LineKind>, kind: LineKind)
    ensures Scan(kinds + [kind]) == Apply(Scan(kinds), kind)
  {
    assert (kinds + [kind])[..|kinds|] == kinds;
  }

  /** Index of the last difficulty line, -1 if there is none. */
  function LastDifficultyLine(kinds: seq<LineKind>): (r: int)
    ensures -1 <= r < |kinds|
    ensures r >= 0 ==> kinds[r].DifficultyLine?
    ensures forall j :: r < j < |kinds| ==> !kinds[j].DifficultyLine?
    decreases |kinds|
  {
    if kinds == [] then -1
    else if kinds[|kinds| - 1].DifficultyLine? then |kinds| - 1
    else LastDifficultyLine(kinds[..|kinds| - 1])
  }

  /** Index of the last length line, -1 if there is none. */
  function LastLengthLine(kinds: seq<LineKind>): (r: int)
    ensures -1 <= r < |kinds|
    ensures r >= 0 ==> kinds[r].LengthLine?
    ensures forall j :: r < j < |kinds| ==> !kinds[j].LengthLine?
    decreases |kinds|
  {
    if kinds == [] then -1
    else if kinds[|kinds| - 1].LengthLine? then |kinds| - 1
    else LastLengthLine(kinds[..|kinds| - 1])
  }

  /** The difficulty is that of the last line that sets one, or "Unknown"
      when no line does. */
  lemma {:induction false} DifficultyFromLastLine(kinds: seq<LineKind>)
    ensures var i := LastDifficultyLine(kinds);
      Scan(kinds).difficulty == if i < 0 then Unknown else kinds[i].value
    decreases |kinds|
  {
    if kinds != [] && !kinds[|kinds| - 1].DifficultyLine? {
      var init := kinds[..|kinds| - 1];
      DifficultyFromLastLine(init);
      var i := LastDifficultyLine(init);
      assert i >= 0 ==> init[i] == kinds[i];
    }
  }

  /** The length is that of the last line that sets one, or "Unknown". */
  lemma {:induction false} LengthFromLastLine(kinds: seq<LineKind>)
    ensures var i := LastLengthLine(kinds);
      Scan(kinds).length == if i < 0 then Unknown else kinds[i].value
    decreases |kinds|
  {
    if kinds != [] && !kinds[|kinds| - 1].LengthLine? {
      var init := kinds[..|kinds| - 1];
      LengthFromLastLine(init);
      var i := LastLengthLine(init);
      assert i >= 0 ==> init[i] == kinds[i];
    }
  }

  /** The texts of the description lines, in order. */
  function DescriptionTexts(kinds: seq<LineKind>): seq<string>
    decreases |kinds|
  {
    if kinds == [] then []
    else (if kinds[0].DescriptionLine? then [kinds[0].text] else []) + DescriptionTexts(kinds[1..])
  }

  /** Each text followed by one space, all concatenated. */
  function SpaceAfterEach(texts: seq<string>): string
    decreases |texts|
  {
    if texts == [] then "" else texts[0] + " " + SpaceAfterEach(texts[1..])
  }

  lemma {:induction false} SpaceAfterEachAppend(a: seq<string>, b: seq<string>)
    ensures SpaceAfterEach(a + b) == SpaceAfterEach(a) + SpaceAfterEach(b)
    decreases |a|
  {
    if a == [] {
      assert a + b == b;
    } else {
      assert (a + b)[0] == a[0] && (a + b)[1..] == a[1..] + b;
      SpaceAfterEachAppend(a[1..], b);
      assert SpaceAfterEach(a + b) == a[0] + " " + (SpaceAfterEach(a[1..]) + SpaceAfterEach(b));
    }
  }

  lemma {:induction false} DescriptionTextsAppend(a: seq<LineKind>, b: seq<LineKind>)
    ensures DescriptionTexts(a + b) == DescriptionTexts(a) + DescriptionTexts(b)
    decreases |a|
  {
    if a == [] {
      assert a + b == b;
    } else {
      assert (a + b)[0] == a[0] && (a + b)[1..] == a[1..] + b;
      DescriptionTextsAppend(a[1..], b);
      var head := if a[0].DescriptionLine? then [a[0].text] else [];
      assert DescriptionTexts(a + b) == head + (DescriptionTexts(a[1..]) + DescriptionTexts(b));
    }
  }

  /** The description gathers exactly the description lines, in order,
      each followed by a space. */
  lemma {:induction false} DescriptionOfPlainLines(kinds: seq<LineKind>)
    ensures Scan(kinds).description == SpaceAfterEach(DescriptionTexts(kinds))
    decreases |kinds|
  {
    if kinds != [] {
      var n := |kinds| - 1;
      var init := kinds[..n];
      DescriptionOfPlainLines(init);
      assert kinds == init + [kinds[n]];
      DescriptionTextsAppend(init, [kinds[n]]);
      assert DescriptionTexts([kinds[n]]) == if kinds[n].DescriptionLine? then [kinds[n].text] else [];
      SpaceAfterEachAppend(DescriptionTexts(init), DescriptionTexts([kinds[n]]));
    }
  }

  /** The `forEach` callback on one line. */
  method ScanLine(difficulty0: string, length0: string, description0: string, line: string)
    returns (difficulty: string, length: string, description: string)
    ensures LineFields(difficulty, length, description) == Apply(LineFields(difficulty0, length0, description0), Classify(line))
  {
    difficulty, length, description := difficulty0, length0, description0;
    var lower := ToLower(line);
    if Contains(lower, "difficulty") {
      var v := ColonField(line);
      if v.Some? && v.value != "" {
        difficulty := v.value;
      }
    } else if Contains(lower, "length") || Contains(lower, "distance") {
      var v := ColonField(line);
      if v.Some? && v.value != "" {
        length := v.value;
      }
    } else if ':' !in line {
      description := description + line + " ";
    }
  }

  /** The `forEach`, step by step. */
  method ScanLines(lines: seq<string>) returns (difficulty: string, length: string, description: string)
    ensures LineFields(difficulty, length, description) == Scan(KindsOf(lines))
  {
    difficulty := Unknown;
    length := Unknown;
    description := "";
    var i := 0;
    while i < |lines|
      invariant 0 <= i <= |lines|
      invariant LineFields(difficulty, length, description) == Scan(KindsOf(lines[..i]))
    {
      MapSeqSnoc(lines, Classify, i);
      ScanSnoc(KindsOf(lines[..i]), Classify(lines[i]));
      difficulty, length, description := ScanLine(difficulty, length, description, lines[i]);
      i := i + 1;
    }
    assert lines[..|lines|] == lines;
  }

  /** The trail built from the entry at position `index`. */
  function EntryTrail(entry: string, index: nat): Trail
  {
    var lines := EntryLines(entry);
    var f := Scan(KindsOf(lines));
    Trail(NatToString(index + 1), TrailName(lines, index), f.difficulty, f.length, Trim(f.description))
  }

  /** The body of the `map` callback. */
  method ParseEntry(entry: string, index: nat) returns (t: Trail)
    ensures t == EntryTrail(entry, index)
  {
    var lines := EntryLines(entry);
    var name := TrailName(lines, index);
    var difficulty, length, description := ScanLines(lines);
    t := Trail(NatToString(index + 1), name, difficulty, length, Trim(description));
  }

  /** `xs.map((x, index) => f(x, index))`. */
  function MapIndexed<T, U>(xs: seq<T>, f: (T, nat) -> U): (r: seq<U>)
    ensures |r| == |xs|
  {
    seq(|xs|, k requires 0 <= k < |xs| => f(xs[k], k))
  }

  lemma MapIndexedSnoc<T, U>(xs: seq<T>, f: (T, nat) -> U, i: nat)
    requires i < |xs|
    ensures MapIndexed(xs[..i + 1], f) == MapIndexed(xs[..i], f) + [f(xs[i], i)]
  {
  }

  /** `trailEntries.map(...)` as a value: one trail per entry, in order. */
  function TrailsOf(entries: seq<string>): seq<Trail>
  {
    MapIndexed(entries, EntryTrail)
  }

  /** The whole parse of the answer text. */
  function ParsedTrails(text: string): seq<Trail>
  {
    TrailsOf(Entries(text))
  }

  /** `trailEntries.map(...)`, one callback at a time. */
  method MapEntries(entries: seq<string>) returns (trails: seq<Trail>)
    ensures trails == TrailsOf(entries)
  {
    trails := [];
    var i := 0;
    while i < |entries|
      invariant 0 <= i <= |entries|
      invariant trails == MapIndexed(entries[..i], EntryTrail)
    {
      var t := ParseEntry(entries[i], i);
      MapIndexedSnoc(entries, EntryTrail, i);
      trails := trails + [t];
      i := i + 1;
    }
    assert entries[..|entries|] == entries;
  }

  /** The split, the filter and the map. */
  method ParseTrails(text: string) returns (trails: seq<Trail>)
    ensures trails == ParsedTrails(text)
  {
    var trailEntries := Entries(text);
    trails := MapEntries(trailEntries);
  }

  /** Ids are "1".."n" by position, hence distinct; each name is the first
      non-empty line of its entry with the label stripped, or "Trail n",
      and so never empty. */
  lemma ParsedIdsAndNames(entries: seq<string>)
    ensures var r := TrailsOf(entries);
      && (forall k :: 0 <= k < |r| ==> r[k].id == NatToString(k + 1) && r[k].name != "")
      && (forall k :: 0 <= k < |r| ==>
            var lines := EntryLines(entries[k]);
            r[k].name == if lines != [] && StripLabel(lines[0]) != "" then StripLabel(lines[0])
                         else "Trail " + NatToString(k + 1))
      && (forall j, k :: 0 <= j < |r| && 0 <= k < |r| && j != k ==> r[j].id != r[k].id)
  {
    var r := TrailsOf(entries);
    forall k | 0 <= k < |r|
      ensures r[k].id == NatToString(k + 1) && r[k].name != ""
      ensures r[k].name == TrailName(EntryLines(entries[k]), k)
    {
      assert r[k] == EntryTrail(entries[k], k);
    }
    forall j, k | 0 <= j < |r| && 0 <= k < |r| && r[j].id == r[k].id
      ensures j == k
    {
      NatToStringInjective(j + 1, k + 1);
    }
  }

  /** The list shown after loading, given the availability verdict and
      the answer `ask` returned. A non-string answer has no `split`, which
      raises and is caught. */
  function TrailsAfterLoad(available: bool, answer: Json): seq<Trail>
  {
    if !available || !answer.JStr? then OfflineTrails
    else
      var parsed := ParsedTrails(answer.s);
      if |parsed| > 0 then parsed else OfflineTrails
  }

  /** The list is never empty: offline, a failure or an empty parse give
      the built-in trails, otherwise one trail per non-empty entry. */
  lemma LoadedTrails(available: bool, answer: Json)
    ensures TrailsAfterLoad(available, answer) != []
    ensures !available || !answer.JStr? ==> TrailsAfterLoad(available, answer) == OfflineTrails
    ensures available && answer.JStr? ==>
      TrailsAfterLoad(available, answer) ==
        if Entries(answer.s) == [] then OfflineTrails else ParsedTrails(answer.s)
  {
  }

  /** With the network down the availability check still says `true`
      (unless a `false` verdict is stored, which never happens), `ask`
      answers with its offline notice, and the screen shows that notice
      parsed as trails rather than the built-in list. */
  lemma OfflineScreenParsesNotice(s: AvailabilityState, now: int, reason: string)
    requires s.verdict != Some(false)
    ensures CheckAvailability(s, now).verdict
    ensures var notice := LlamaService.GetOfflineResponse(TrailsPrompt);
      TrailsAfterLoad(CheckAvailability(s, now).verdict, LlamaService.Ask(TrailsPrompt, NetFail(reason)).answer)
        == if Entries(notice) == [] then OfflineTrails else ParsedTrails(notice)
  {
    VerdictNeverFalse(s, now);
    NoticeLoaded(TrailsPrompt, reason);
  }

  lemma VerdictNeverFalse(s: AvailabilityState, now: int)
    requires s.verdict != Some(false)
    ensures CheckAvailability(s, now).verdict
  {
  }

  /** Offline, any prompt's answer is its offline notice, loaded as text. */
  lemma NoticeLoaded(prompt: string, reason: string)
    ensures var notice := LlamaService.GetOfflineResponse(prompt);
      TrailsAfterLoad(true, LlamaService.Ask(prompt, NetFail(reason)).answer)
        == if Entries(notice) == [] then OfflineTrails else ParsedTrails(notice)
  {
    AskFallsBack(prompt, NetFail(reason));
    var notice := LlamaService.GetOfflineResponse(prompt);
    assert LlamaService.Ask(prompt, NetFail(reason)).answer == JStr(notice);
    LoadedTrails(true, JStr(notice));
  }

  /** The empty answer parses to no trail and shows the built-in trails. */
  lemma EmptyAnswerShowsOfflineTrails(available: bool)
    ensures TrailsAfterLoad(available, JStr("")) == OfflineTrails
  {
    NoMarkerNoSplit("");
  }

  /** The screen state that `loadTrails` sets. */
  class TrailsScreen {
    var trails: seq<Trail>
    var isLoading: bool
    var isOnline: Option<bool>

    constructor ()
      ensures trails == [] && isLoading && isOnline == None
    {
      trails := [];
      isLoading := true;
      isOnline := None;
    }

    /** `loadTrails`; `probe` and `reply` are what the network does with the
        availability probe and with the trail question. */
    method LoadTrails(service: LlamaService, now: int, probe: HttpOutcome, reply: HttpOutcome)
      modifies this, service
      ensures var check := CheckAvailability(old(service.State()), now);
        && service.State() == check.next
        && service.probes == old(service.probes) + (if check.probed then 1 else 0)
        && isOnline == Some(check.verdict)
        && trails == TrailsAfterLoad(check.verdict, LlamaService.Ask(TrailsPrompt, reply).answer)
        && !isLoading
    {
      isLoading := true;
      var available := service.IsBackendAvailable(now, probe);
      isOnline := Some(available);
      if available {
        var response := LlamaService.Ask(TrailsPrompt, reply);
        var trailText := response.answer;
        if !trailText.JStr? {
          trails := OfflineTrails;
        } else {
          var parsedTrails := ParseTrails(trailText.s);
          trails := if |parsedTrails| > 0 then parsedTrails else OfflineTrails;
        }
      } else {
        trails := OfflineTrails;
      }
      isLoading := false;
    }
  }
}
