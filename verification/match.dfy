/** One match (manager.py:60-127): the argument vector the game engine is
    started with, and the strict, positional decoder of what the engine
    prints. The decoder is modelled twice: `ParseResults` follows the
    source's single pass over the lines, and `FieldwiseDecode` reads each
    field from its own line; `ParseResultsIsFieldwise` proves them equal. */
module Match {
  import opened Results
  import opened PyText

  /** What the parser extracts from the engine's output: the replay file
      name, the rank of each participant (by invocation position) and the
      timeout tokens. */
  datatype Outcome = Outcome(replayFile: string, results: seq<int>, timeouts: seq<string>)

  /** The effect of one rank line: `results[slot] := rank`. */
  datatype RankEntry = RankEntry(slot: nat, rank: int)

  /* ---------------- the engine invocation ---------------- */

  /** `Match.get_command`: the engine binary, the board size and the seed
      (each option together with its values as ONE argument, joined by
      spaces), the quiet flag, then the participants' paths in invocation
      order. */
  function GetCommand(binary: string, width: int, height: int, seed: int, paths: seq<string>): (argv: seq<string>)
    ensures |argv| == 4 + |paths|
    ensures argv[0] == binary && argv[2] == "-q"
    ensures argv[4..] == paths
  {
    [binary, "-d " + IntToString(width) + " " + IntToString(height), "-q", "-s " + IntToString(seed)] + paths
  }

  /** The option arguments split at spaces into the option and its values. */
  lemma CommandTokens(binary: string, width: int, height: int, seed: int, paths: seq<string>)
    ensures var argv := GetCommand(binary, width, height, seed, paths);
      && Split(argv[1], ' ') == ["-d", IntToString(width), IntToString(height)]
      && Split(argv[3], ' ') == ["-s", IntToString(seed)]
  {
    DimensionTokens(width, height);
    SeedTokens(seed);
  }

  lemma DimensionTokens(width: int, height: int)
    ensures Split("-d " + IntToString(width) + " " + IntToString(height), ' ') == ["-d", IntToString(width), IntToString(height)]
  {
    var w, h := IntToString(width), IntToString(height);
    var pieces := ["-d", w, h];
    assert pieces[1..] == [w, h];
    assert Join([w, h], ' ') == w + " " + h;
    assert "-d " + w + " " + h == Join(pieces, ' ');
    SplitJoin(pieces, ' ');
  }

  lemma SeedTokens(seed: int)
    ensures Split("-s " + IntToString(seed), ' ') == ["-s", IntToString(seed)]
  {
    var pieces := ["-s", IntToString(seed)];
    assert "-s " + IntToString(seed) == Join(pieces, ' ');
    SplitJoin(pieces, ' ');
  }

  /** The engine reads the board size and the seed back from the arguments
      exactly as the manager chose them. */
  lemma CommandReadsBack(binary: string, width: int, height: int, seed: int, paths: seq<string>)
    ensures var argv := GetCommand(binary, width, height, seed, paths);
      && Split(argv[1], ' ') == ["-d", IntToString(width), IntToString(height)]
      && Split(argv[3], ' ') == ["-s", IntToString(seed)]
      && ParseInt(Split(argv[1], ' ')[1]) == Some(width)
      && ParseInt(Split(argv[1], ' ')[2]) == Some(height)
      && ParseInt(Split(argv[3], ' ')[1]) == Some(seed)
  {
    CommandTokens(binary, width, height, seed, paths);
    IntToStringRoundTrip(width);
    IntToStringRoundTrip(height);
    IntToStringRoundTrip(seed);
  }

  /* ---------------- one rank line ---------------- */

  /** The list slot Python's `results[i]` denotes in a list of length `n`:
      negative indices count from the end, anything else outside the list
      raises IndexError. */
  function ListSlot(i: int, n: nat): (slot: Option<nat>)
    ensures slot.Some? <==> -(n as int) <= i < n
    ensures slot.Some? ==> slot.value < n && (slot.value == i || slot.value == i + n)
  {
    if 0 <= i < n then Some(i)
    else if -(n as int) <= i < 0 then Some(i + n)
    else None
  }

  /** A rank line `"<rank> <index>"` (manager.py:123-126): the first token is
      the rank, the second the 1-based participant index; further tokens are
      ignored. The errors arise in the order Python evaluates the line. */
  function ParseRankLine(line: string, n: nat): (r: Result<RankEntry>)
    ensures r.Ok? ==> r.value.slot < n
  {
    var token := Split(line, ' ');
    match ParseInt(token[0])
    case None => Err(InvalidLiteral(token[0]))
    case Some(rank) =>
      if |token| < 2 then Err(MissingToken(line))
      else
        match ParseInt(token[1])
        case None => Err(InvalidLiteral(token[1]))
        case Some(index) =>
          match ListSlot(index - 1, n)
          case None => Err(IndexOutOfRange(index - 1))
          case Some(slot) => Ok(RankEntry(slot, rank))
  }

  /** The rank line the engine prints for participant `index` (1-based). */
  function RankLine(rank: int, index: int): string
  {
    IntToString(rank) + " " + IntToString(index)
  }

  lemma RankLineTokens(rank: int, index: int)
    ensures Split(RankLine(rank, index), ' ') == [IntToString(rank), IntToString(index)]
  {
    assert RankLine(rank, index) == Join([IntToString(rank), IntToString(index)], ' ');
    SplitJoin([IntToString(rank), IntToString(index)], ' ');
  }

  /** A well-formed rank line for participant `index` sets that participant's slot. */
  lemma RankLineRoundTrip(rank: int, index: int, n: nat)
    requires 1 <= index <= n
    ensures ParseRankLine(RankLine(rank, index), n) == Ok(RankEntry(index - 1, rank))
  {
    RankLineTokens(rank, index);
    IntToStringRoundTrip(rank);
    IntToStringRoundTrip(index);
  }

  /** Any index Python accepts as a list position sets the slot it denotes. */
  lemma RankLineSlot(rank: int, index: int, n: nat)
    requires -(n as int) < index <= n
    ensures ParseRankLine(RankLine(rank, index), n) == Ok(RankEntry(ListSlot(index - 1, n).value, rank))
  {
    RankLineTokens(rank, index);
    IntToStringRoundTrip(rank);
    IntToStringRoundTrip(index);
  }

  /** Index 0 is not rejected: `int("0") - 1 == -1` addresses the LAST
      slot, and in general a non-positive index counts from the end. */
  lemma RankLineIndexFromEnd(rank: int, index: int, n: nat)
    requires -(n as int) < index <= 0
    ensures ParseRankLine(RankLine(rank, index), n) == Ok(RankEntry(index - 1 + n, rank))
  {
    assert ListSlot(index - 1, n) == Some(index - 1 + n);
    RankLineSlot(rank, index, n);
  }

  /** An index above the participant count raises IndexError. */
  lemma RankLineIndexTooLarge(rank: int, index: int, n: nat)
    requires index > n
    ensures ParseRankLine(RankLine(rank, index), n) == Err(IndexOutOfRange(index - 1))
  {
    RankLineTokens(rank, index);
    IntToStringRoundTrip(rank);
    IntToStringRoundTrip(index);
  }

  /** A line whose first token holds no digit fails on that token. */
  lemma RankLineNonInteger(line: string, n: nat)
    requires forall i :: 0 <= i < |Split(line, ' ')[0]| ==> !IsDigit(Split(line, ' ')[0][i])
    ensures ParseRankLine(line, n) == Err(InvalidLiteral(Split(line, ' ')[0]))
  {
    var first := Split(line, ' ')[0];
    NoDigitNoInt(first);
  }

  /* ---------------- the whole output, as the source scans it ---------------- */

  function Zeros(n: nat): (z: seq<int>)
    ensures |z| == n && forall j :: 0 <= j < n ==> z[j] == 0
  {
    seq(n, _ => 0)
  }

  /** The loop of `parse_results_string` (manager.py:114-127) from line
      `count` on, with the branches taken in the source's order. */
  function ScanLines(lines: seq<string>, n: nat, count: nat, acc: Outcome): (r: Result<Outcome>)
    requires count <= |lines| && |acc.results| == n
    ensures r.Ok? ==> |r.value.results| == n
    decreases |lines| - count
  {
    if count == |lines| then Ok(acc)
    else
      var line := lines[count];
      if count == n then
        ScanLines(lines, n, count + 1, acc.(replayFile := Split(line, ' ')[0]))
      else if count == 2 * n + 1 then
        ScanLines(lines, n, count + 1, acc.(timeouts := Split(line, ' ')))
      else if count < n then
        ScanLines(lines, n, count + 1, acc)
      else if count < 2 * n + 1 then
        match ParseRankLine(line, n)
        case Err(e) => Err(e)
        case Ok(entry) => ScanLines(lines, n, count + 1, acc.(results := acc.results[entry.slot := entry.rank]))
      else
        ScanLines(lines, n, count + 1, acc)
  }

  /** `Match.parse_results_string` for a match of `n` participants: split
      the output on newlines, refuse fewer than `2n + 2` lines, then scan.
      The results start as `n` zeros (manager.py:68). */
  function ParseResults(output: string, n: nat): (r: Result<Outcome>)
    ensures |Split(output, '\n')| < 2 * n + 2 <==> r == Err(NotEnoughLines(|Split(output, '\n')|))
    ensures r.Ok? ==> |r.value.results| == n
  {
    var lines := Split(output, '\n');
    if |lines| < 2 + 2 * n then Err(NotEnoughLines(|lines|))
    else
      var r := ScanLines(lines, n, 0, Outcome("", Zeros(n), []));
      ScanNeverShort(lines, n, 0, Outcome("", Zeros(n), []));
      r
  }

  /** The scan never raises the line-count error: only rank lines can fail. */
  lemma {:induction false} ScanNeverShort(lines: seq<string>, n: nat, count: nat, acc: Outcome)
    requires count <= |lines| && |acc.results| == n
    ensures ScanLines(lines, n, count, acc).Err? ==> !ScanLines(lines, n, count, acc).error.NotEnoughLines?
    decreases |lines| - count
  {
    if count < |lines| {
      var line := lines[count];
      if count == n {
        ScanNeverShort(lines, n, count + 1, acc.(replayFile := Split(line, ' ')[0]));
      } else if count == 2 * n + 1 {
        ScanNeverShort(lines, n, count + 1, acc.(timeouts := Split(line, ' ')));
      } else if count < n {
        ScanNeverShort(lines, n, count + 1, acc);
      } else if count < 2 * n + 1 {
        match ParseRankLine(line, n)
        case Err(e) =>
          assert !e.NotEnoughLines? by { RankLineErrors(line, n); }
        case Ok(entry) =>
          ScanNeverShort(lines, n, count + 1, acc.(results := acc.results[entry.slot := entry.rank]));
      } else {
        ScanNeverShort(lines, n, count + 1, acc);
      }
    }
  }

  lemma RankLineErrors(line: string, n: nat)
    ensures ParseRankLine(line, n).Err? ==>
      var e := ParseRankLine(line, n).error; e.InvalidLiteral? || e.MissingToken? || e.IndexOutOfRange?
  {
  }

  /* ---------------- the same output, read field by field ---------------- */

  /** Each rank line decoded on its own, in order. */
  function DecodeLines(rankLines: seq<string>, n: nat): (d: seq<Result<RankEntry>>)
    ensures |d| == |rankLines| && SlotsBelow(d, n)
    decreases |rankLines|
  {
    if rankLines == [] then [] else [ParseRankLine(rankLines[0], n)] + DecodeLines(rankLines[1..], n)
  }

  /** Every decoded entry names a slot below `n`. */
  predicate SlotsBelow(decoded: seq<Result<RankEntry>>, n: nat)
  {
    forall i :: 0 <= i < |decoded| && decoded[i].Ok? ==> decoded[i].value.slot < n
  }

  /** The `i`-th decoded line is the decoding of the `i`-th line. */
  lemma {:induction false} DecodeLinesAt(rankLines: seq<string>, n: nat, i: nat)
    requires i < |rankLines|
    ensures DecodeLines(rankLines, n)[i] == ParseRankLine(rankLines[i], n)
    decreases i
  {
    if i > 0 {
      DecodeLinesAt(rankLines[1..], n, i - 1);
      assert rankLines[1..][i - 1] == rankLines[i];
    }
  }

  /** The entries of the decoded lines, or the first error among them. */
  function CollectEntries(decoded: seq<Result<RankEntry>>): (r: Result<seq<RankEntry>>)
    ensures r.Ok? ==> |r.value| == |decoded|
  {
    if decoded == [] then Ok([])
    else
      match decoded[0]
      case Err(e) => Err(e)
      case Ok(entry) =>
        match CollectEntries(decoded[1..])
        case Err(e) => Err(e)
        case Ok(rest) => Ok([entry] + rest)
  }

  /** The rank lines decoded in order, or the error of the first line that
      does not decode. */
  function ParseEntries(rankLines: seq<string>, n: nat): Result<seq<RankEntry>>
  {
    CollectEntries(DecodeLines(rankLines, n))
  }

  /** Collected entries are the decoded values, in order. */
  lemma {:induction false} CollectedValues(decoded: seq<Result<RankEntry>>)
    requires CollectEntries(decoded).Ok?
    ensures forall i :: 0 <= i < |decoded| ==> decoded[i] == Ok(CollectEntries(decoded).value[i])
  {
    if decoded != [] {
      var tail := decoded[1..];
      CollectedValues(tail);
      var entries := CollectEntries(decoded).value;
      assert entries[1..] == CollectEntries(tail).value;
      forall i | 1 <= i < |decoded|
        ensures decoded[i] == Ok(entries[i])
      {
        assert decoded[i] == tail[i - 1] && entries[i] == entries[1..][i - 1];
      }
    }
  }

  /** One error among the decoded lines fails the collection. */
  lemma {:induction false} CollectFails(decoded: seq<Result<RankEntry>>, k: nat)
    requires k < |decoded| && decoded[k].Err?
    ensures CollectEntries(decoded).Err?
  {
    if k > 0 && decoded[0].Ok? {
      assert decoded[1..][k - 1] == decoded[k];
      CollectFails(decoded[1..], k - 1);
    }
  }

  /** Position `i` holds the first error among the decoded lines, and it is `e`. */
  predicate FirstErrorAt(decoded: seq<Result<RankEntry>>, e: Error, i: int)
  {
    0 <= i < |decoded| && decoded[i] == Err(e) && forall k :: 0 <= k < i ==> decoded[k].Ok?
  }

  /** A failed collection reports the first error. */
  lemma {:induction false} CollectReportsFirstError(decoded: seq<Result<RankEntry>>)
    requires CollectEntries(decoded).Err?
    ensures exists i :: FirstErrorAt(decoded, CollectEntries(decoded).error, i)
  {
    var e := CollectEntries(decoded).error;
    if decoded[0].Err? {
      assert FirstErrorAt(decoded, e, 0);
    } else {
      var tail := decoded[1..];
      CollectReportsFirstError(tail);
      var i :| FirstErrorAt(tail, e, i);
      assert forall k :: 1 <= k < i + 2 ==> decoded[k] == tail[k - 1];
      assert FirstErrorAt(decoded, e, i + 1);
    }
  }

  /** A successful decoding holds, in order, the entry of each rank line. */
  lemma EntriesDecodeLines(rankLines: seq<string>, n: nat)
    requires ParseEntries(rankLines, n).Ok?
    ensures forall i :: 0 <= i < |rankLines| ==> ParseRankLine(rankLines[i], n) == Ok(ParseEntries(rankLines, n).value[i])
  {
    CollectedValues(DecodeLines(rankLines, n));
    forall i | 0 <= i < |rankLines|
      ensures ParseRankLine(rankLines[i], n) == Ok(ParseEntries(rankLines, n).value[i])
    {
      DecodeLinesAt(rankLines, n, i);
    }
  }

  /** One rank line that does not decode fails the whole decoding. */
  lemma BadLineFailsEntries(rankLines: seq<string>, n: nat, k: nat)
    requires k < |rankLines| && ParseRankLine(rankLines[k], n).Err?
    ensures ParseEntries(rankLines, n).Err?
  {
    DecodeLinesAt(rankLines, n, k);
    CollectFails(DecodeLines(rankLines, n), k);
  }

  /** A failed decoding reports the error of the first rank line that does
      not decode. */
  lemma FirstBadLine(rankLines: seq<string>, n: nat)
    requires ParseEntries(rankLines, n).Err?
    ensures exists i :: (0 <= i < |rankLines| && ParseRankLine(rankLines[i], n) == Err(ParseEntries(rankLines, n).error)
      && forall k :: 0 <= k < i ==> ParseRankLine(rankLines[k], n).Ok?)
  {
    var decoded := DecodeLines(rankLines, n);
    CollectReportsFirstError(decoded);
    var i :| FirstErrorAt(decoded, CollectEntries(decoded).error, i);
    DecodeLinesAt(rankLines, n, i);
    forall k | 0 <= k < i
      ensures ParseRankLine(rankLines[k], n).Ok?
    {
      DecodeLinesAt(rankLines, n, k);
    }
  }

  /** The rank of the LAST entry naming `slot`, or `default` if none does. */
  function LastRank(entries: seq<RankEntry>, slot: int, default: int): int
  {
    if entries == [] then default
    else if entries[|entries| - 1].slot == slot then entries[|entries| - 1].rank
    else LastRank(entries[..|entries| - 1], slot, default)
  }

  /** The engine output read by fields: line `n` names the replay file,
      lines `n+1 .. 2n` are rank lines, line `2n+1` holds the timeouts;
      slot `j` gets the rank of the last rank line naming it, else 0. */
  function FieldwiseDecode(lines: seq<string>, n: nat): Result<Outcome>
    requires |lines| >= 2 * n + 2
  {
    match ParseEntries(lines[n + 1..2 * n + 1], n)
    case Err(e) => Err(e)
    case Ok(entries) =>
      Ok(Outcome(Split(lines[n], ' ')[0], seq(n, j => LastRank(entries, j, 0)), Split(lines[2 * n + 1], ' ')))
  }

  /* ---------------- the two readings agree ---------------- */

  /** The decoded rank lines applied in order to `base`, stopping at the
      first error. */
  function ApplyEntries(base: seq<int>, decoded: seq<Result<RankEntry>>): (r: Result<seq<int>>)
    requires SlotsBelow(decoded, |base|)
    ensures r.Ok? ==> |r.value| == |base|
    decreases |decoded|
  {
    if decoded == [] then Ok(base)
    else
      match decoded[0]
      case Err(e) => Err(e)
      case Ok(entry) =>
        assert forall i :: 0 <= i < |decoded| - 1 ==> decoded[1..][i] == decoded[i + 1];
        ApplyEntries(base[entry.slot := entry.rank], decoded[1..])
  }

  /** Peeling the first entry: it only decides the default of its own slot. */
  lemma {:induction false} LastRankFirst(e: RankEntry, rest: seq<RankEntry>, slot: int, default: int)
    ensures LastRank([e] + rest, slot, default) == LastRank(rest, slot, if e.slot == slot then e.rank else default)
    decreases |rest|
  {
    var all := [e] + rest;
    if rest != [] {
      assert all[..|all| - 1] == [e] + rest[..|rest| - 1];
      assert all[|all| - 1] == rest[|rest| - 1];
      LastRankFirst(e, rest[..|rest| - 1], slot, default);
    }
  }

  /** Applying the decoded lines in order leaves in every slot the rank of
      the last entry naming it; an error is the first error. */
  lemma {:induction false} ApplyEntriesIsLastRank(base: seq<int>, decoded: seq<Result<RankEntry>>)
    requires SlotsBelow(decoded, |base|)
    ensures ApplyEntries(base, decoded) ==
      match CollectEntries(decoded)
      case Err(e) => Err(e)
      case Ok(entries) => Ok(seq(|base|, j requires 0 <= j < |base| => LastRank(entries, j, base[j])))
    decreases |decoded|
  {
    if decoded == [] {
      assert seq(|base|, j requires 0 <= j < |base| => LastRank([], j, base[j])) == base;
    } else {
      match decoded[0]
      case Err(e) =>
      case Ok(entry) =>
        var base' := base[entry.slot := entry.rank];
        assert forall i :: 0 <= i < |decoded| - 1 ==> decoded[1..][i] == decoded[i + 1];
        ApplyEntriesIsLastRank(base', decoded[1..]);
        match CollectEntries(decoded[1..])
        case Err(e) =>
        case Ok(rest) =>
          forall j | 0 <= j < |base|
            ensures LastRank(rest, j, base'[j]) == LastRank([entry] + rest, j, base[j])
          {
            LastRankFirst(entry, rest, j, base[j]);
          }
          assert seq(|base|, j requires 0 <= j < |base| => LastRank(rest, j, base'[j]))
              == seq(|base|, j requires 0 <= j < |base| => LastRank([entry] + rest, j, base[j]));
    }
  }

  /** Header lines `0 .. n-1` change nothing. */
  lemma {:induction false} ScanSkipsHeaders(lines: seq<string>, n: nat, count: nat, acc: Outcome)
    requires count <= n && |lines| >= 2 * n + 2 && |acc.results| == n
    ensures ScanLines(lines, n, count, acc) == ScanLines(lines, n, n, acc)
    decreases n - count
  {
    if count < n {
      ScanSkipsHeaders(lines, n, count + 1, acc);
    }
  }

  /** The rank lines from `count` on act as `ApplyEntries` of their decodings. */
  lemma {:induction false} ScanRankLines(lines: seq<string>, n: nat, count: nat, acc: Outcome)
    requires n + 1 <= count <= 2 * n + 1 && |lines| >= 2 * n + 2 && |acc.results| == n
    ensures ScanLines(lines, n, count, acc) ==
      match ApplyEntries(acc.results, DecodeLines(lines[count..2 * n + 1], n))
      case Err(e) => Err(e)
      case Ok(res) => ScanLines(lines, n, 2 * n + 1, acc.(results := res))
    decreases 2 * n + 1 - count
  {
    var rankLines := lines[count..2 * n + 1];
    if count == 2 * n + 1 {
      assert rankLines == [];
      assert acc.(results := acc.results) == acc;
    } else {
      assert rankLines[0] == lines[count];
      assert rankLines[1..] == lines[count + 1..2 * n + 1];
      var decoded := DecodeLines(rankLines, n);
      assert decoded[1..] == DecodeLines(lines[count + 1..2 * n + 1], n);
      var parsed := ParseRankLine(lines[count], n);
      assert decoded[0] == parsed;
      if parsed.Err? {
        assert ScanLines(lines, n, count, acc) == Err(parsed.error);
        assert ApplyEntries(acc.results, decoded) == Err(parsed.error);
      } else {
        var acc' := acc.(results := acc.results[parsed.value.slot := parsed.value.rank]);
        assert ScanLines(lines, n, count, acc) == ScanLines(lines, n, count + 1, acc');
        assert ApplyEntries(acc.results, decoded) == ApplyEntries(acc'.results, decoded[1..]);
        ScanRankLines(lines, n, count + 1, acc');
      }
    }
  }

  /** Lines after the timeout line change nothing. */
  lemma {:induction false} ScanSkipsTail(lines: seq<string>, n: nat, count: nat, acc: Outcome)
    requires 2 * n + 2 <= count <= |lines| && |acc.results| == n
    ensures ScanLines(lines, n, count, acc) == Ok(acc)
    decreases |lines| - count
  {
    if count < |lines| {
      ScanSkipsTail(lines, n, count + 1, acc);
    }
  }

  /** Line `n` sets the replay file. */
  lemma ScanReplayLine(lines: seq<string>, n: nat, acc: Outcome)
    requires |lines| >= 2 * n + 2 && |acc.results| == n
    ensures ScanLines(lines, n, n, acc) == ScanLines(lines, n, n + 1, acc.(replayFile := Split(lines[n], ' ')[0]))
  {
  }

  /** Line `2n + 1` sets the timeouts. */
  lemma ScanTimeoutLine(lines: seq<string>, n: nat, acc: Outcome)
    requires |lines| >= 2 * n + 2 && |acc.results| == n
    ensures ScanLines(lines, n, 2 * n + 1, acc) == ScanLines(lines, n, 2 * n + 2, acc.(timeouts := Split(lines[2 * n + 1], ' ')))
  {
  }

  /** The scan up to and including the replay line. */
  lemma ScanThroughReplayLine(lines: seq<string>, n: nat, acc: Outcome)
    requires |lines| >= 2 * n + 2 && |acc.results| == n
    ensures ScanLines(lines, n, 0, acc) == ScanLines(lines, n, n + 1, acc.(replayFile := Split(lines[n], ' ')[0]))
  {
    ScanSkipsHeaders(lines, n, 0, acc);
    ScanReplayLine(lines, n, acc);
  }

  /** The scan from the timeout line to the end. */
  lemma ScanFromTimeoutLine(lines: seq<string>, n: nat, acc: Outcome)
    requires |lines| >= 2 * n + 2 && |acc.results| == n
    ensures ScanLines(lines, n, 2 * n + 1, acc) == Ok(acc.(timeouts := Split(lines[2 * n + 1], ' ')))
  {
    ScanTimeoutLine(lines, n, acc);
    ScanSkipsTail(lines, n, 2 * n + 2, acc.(timeouts := Split(lines[2 * n + 1], ' ')));
  }

  /** The scan from line 0 with the initial match state is the field-by-field reading. */
  lemma ScanIsFieldwise(lines: seq<string>, n: nat)
    requires |lines| >= 2 * n + 2
    ensures ScanLines(lines, n, 0, Outcome("", Zeros(n), [])) == FieldwiseDecode(lines, n)
  {
    var decoded := DecodeLines(lines[n + 1..2 * n + 1], n);
    ScanAppliesRankLines(lines, n);
    ApplyEntriesIsLastRank(Zeros(n), decoded);
    match CollectEntries(decoded)
    case Err(e) =>
    case Ok(entries) =>
      assert seq(n, j requires 0 <= j < n => LastRank(entries, j, Zeros(n)[j])) == seq(n, j => LastRank(entries, j, 0));
  }

  /** A scan from the top reads the replay line, applies the rank lines to
      the zero ranks and reads the timeout line. */
  lemma ScanAppliesRankLines(lines: seq<string>, n: nat)
    requires |lines| >= 2 * n + 2
    ensures ScanLines(lines, n, 0, Outcome("", Zeros(n), [])) ==
      match ApplyEntries(Zeros(n), DecodeLines(lines[n + 1..2 * n + 1], n))
      case Err(e) => Err(e)
      case Ok(res) => Ok(Outcome(Split(lines[n], ' ')[0], res, Split(lines[2 * n + 1], ' ')))
  {
    var init := Outcome("", Zeros(n), []);
    var withReplay := init.(replayFile := Split(lines[n], ' ')[0]);
    ScanThroughReplayLine(lines, n, init);
    ScanRankLines(lines, n, n + 1, withReplay);
    match ApplyEntries(Zeros(n), DecodeLines(lines[n + 1..2 * n + 1], n))
    case Err(e) =>
    case Ok(res) =>
      ScanFromTimeoutLine(lines, n, withReplay.(results := res));
  }

  /** The source's single pass computes exactly the field-by-field reading. */
  lemma ParseResultsIsFieldwise(output: string, n: nat)
    requires |Split(output, '\n')| >= 2 * n + 2
    ensures ParseResults(output, n) == FieldwiseDecode(Split(output, '\n'), n)
  {
    ScanIsFieldwise(Split(output, '\n'), n);
  }

  /* ---------------- consequences ---------------- */

  /** On success the replay file is the first space-separated token of line
      `n`, the timeouts are the space-split of line `2n + 1`, and every
      participant has exactly one rank: that of the last rank line naming
      it, or 0 when none does. */
  lemma ParseSuccess(output: string, n: nat)
    requires ParseResults(output, n).Ok?
    ensures var lines := Split(output, '\n');
      var o := ParseResults(output, n).value;
      && |lines| >= 2 * n + 2
      && o.replayFile == Split(lines[n], ' ')[0]
      && o.timeouts == Split(lines[2 * n + 1], ' ')
      && |o.results| == n
      && ParseEntries(lines[n + 1..2 * n + 1], n).Ok?
      && forall j :: 0 <= j < n ==> o.results[j] == LastRank(ParseEntries(lines[n + 1..2 * n + 1], n).value, j, 0)
  {
    ParseResultsIsFieldwise(output, n);
  }

  /** A slot no rank line names keeps its initial 0. */
  lemma {:induction false} UnnamedSlotIsZero(entries: seq<RankEntry>, slot: int)
    requires forall i :: 0 <= i < |entries| ==> entries[i].slot != slot
    ensures LastRank(entries, slot, 0) == 0
    decreases |entries|
  {
    if entries != [] {
      UnnamedSlotIsZero(entries[..|entries| - 1], slot);
    }
  }

  /** Of two rank lines naming the same slot, the later one wins. */
  lemma LaterLineWins(entries: seq<RankEntry>, e: RankEntry, default: int)
    ensures LastRank(entries + [e], e.slot, default) == e.rank
  {
  }

  /** A rank line that does not decode makes the whole parse fail. */
  lemma BadRankLineFails(output: string, n: nat, k: nat)
    requires |Split(output, '\n')| >= 2 * n + 2
    requires n + 1 <= k <= 2 * n
    requires ParseRankLine(Split(output, '\n')[k], n).Err?
    ensures ParseResults(output, n).Err?
  {
    var lines := Split(output, '\n');
    ParseResultsIsFieldwise(output, n);
    var rankLines := lines[n + 1..2 * n + 1];
    assert rankLines[k - n - 1] == lines[k];
    BadLineFailsEntries(rankLines, n, k - n - 1);
  }

  /** The field-by-field reading looks only at lines `n .. 2n+1`. */
  lemma FieldwiseReadsFieldLines(lines1: seq<string>, lines2: seq<string>, n: nat)
    requires |lines1| >= 2 * n + 2 && |lines2| >= 2 * n + 2
    requires lines1[n..2 * n + 2] == lines2[n..2 * n + 2]
    ensures FieldwiseDecode(lines1, n) == FieldwiseDecode(lines2, n)
  {
    var fields := lines1[n..2 * n + 2];
    assert lines1[n] == fields[0] == lines2[n];
    assert lines1[2 * n + 1] == fields[n + 1] == lines2[2 * n + 1];
    forall i | n + 1 <= i < 2 * n + 1
      ensures lines1[i] == lines2[i]
    {
      assert lines1[i] == fields[i - n] == lines2[i];
    }
    assert lines1[n + 1..2 * n + 1] == lines2[n + 1..2 * n + 1];
  }

  /** Only lines `n .. 2n+1` matter: outputs that agree there (and are both
      long enough) parse alike, whatever their headers and trailing lines. */
  lemma OnlyFieldLinesMatter(output1: string, output2: string, n: nat)
    requires |Split(output1, '\n')| >= 2 * n + 2 && |Split(output2, '\n')| >= 2 * n + 2
    requires Split(output1, '\n')[n..2 * n + 2] == Split(output2, '\n')[n..2 * n + 2]
    ensures ParseResults(output1, n) == ParseResults(output2, n)
  {
    ParseResultsIsFieldwise(output1, n);
    ParseResultsIsFieldwise(output2, n);
    FieldwiseReadsFieldLines(Split(output1, '\n'), Split(output2, '\n'), n);
  }
}
