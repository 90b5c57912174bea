/**
 The memo a client puts in a transaction and the log line it is recovered from
 (`create_memo_transaction`, `extract_memo_line`, `parse_memo_log`).
 */
module Memo {
  import opened Wrappers
  import opened Text

  const MEMO_LOG_PREFIX := "Program log: Memo"

  /** Text of the memo instruction: `id,slot,timestamp`. */
  function MemoText(id: nat, slot: nat, timestamp: nat): string {
    Decimal(id) + "," + Decimal(slot) + "," + Decimal(timestamp)
  }

  /** The line the memo program logs for a memo: its length, then the memo in quotes. */
  function MemoLogLine(memo: string): string {
    MEMO_LOG_PREFIX + " (len " + Decimal(|memo|) + "): \"" + memo + "\""
  }

  predicate IsMemoLine(line: string) {
    MEMO_LOG_PREFIX <= line
  }

  function ExtractMemoLine(logs: seq<string>): Option<string> {
    if logs == [] then None
    else if IsMemoLine(logs[0]) then Some(logs[0])
    else ExtractMemoLine(logs[1..])
  }

  function ParseMemoLog(log: string): Option<(nat, nat, nat)> {
    var quotes := Split(log, '"');
    if |quotes| < 2 then None
    else
      var parts := Split(quotes[1], ',');
      if |parts| < 3 then None
      else
        match (ParseUnsigned(parts[0], U64_MAX), ParseUnsigned(parts[1], U64_MAX), ParseUnsigned(parts[2], U64_MAX))
        case (Some(id), Some(slot), Some(timestamp)) => Some((id, slot, timestamp))
        case _ => None
  }

  lemma DecimalFree(n: nat, c: char)
    requires !IsDigit(c)
    ensures Free(Decimal(n), c)
  {}

  lemma {:induction false} FirstMemoLine(before: seq<string>, line: string, after: seq<string>)
    requires IsMemoLine(line) && forall l :: l in before ==> !IsMemoLine(l)
    ensures ExtractMemoLine(before + [line] + after) == Some(line)
  {
    var logs := before + [line] + after;
    if before != [] {
      assert logs[1..] == before[1..] + [line] + after;
      FirstMemoLine(before[1..], line, after);
    }
  }

  lemma SplitThree(a: string, b: string, c: string)
    requires Free(a, ',') && Free(b, ',') && Free(c, ',')
    ensures Split(a + "," + b + "," + c, ',') == [a, b, c]
  {
    SplitFirst(a, ',', b + "," + c);
    SplitFirst(b, ',', c);
    SplitFree(c, ',');
    assert a + "," + b + "," + c == a + [','] + (b + "," + c);
    assert b + "," + c == b + [','] + c;
  }

  lemma MemoParts(id: nat, slot: nat, timestamp: nat)
    ensures Split(MemoText(id, slot, timestamp), ',') == [Decimal(id), Decimal(slot), Decimal(timestamp)]
    ensures Free(MemoText(id, slot, timestamp), '"')
  {
    SplitThree(Decimal(id), Decimal(slot), Decimal(timestamp));
    DecimalFree(id, '"');
    DecimalFree(slot, '"');
    DecimalFree(timestamp, '"');
  }

  /**
   Round trip: out of any log in which the memo line is the first memo line, the subscriber recovers the
   triple the client printed. It does so exactly for the triples that fit the parsed integer types.
   */
  lemma MemoRoundTrip(id: nat, slot: nat, timestamp: nat, before: seq<string>, after: seq<string>)
    requires forall l :: l in before ==> !IsMemoLine(l)
    ensures var line := MemoLogLine(MemoText(id, slot, timestamp));
            && ExtractMemoLine(before + [line] + after) == Some(line)
            && ParseMemoLog(line) ==
               if id <= U64_MAX && slot <= U64_MAX && timestamp <= U64_MAX then Some((id, slot, timestamp)) else None
  {
    var memo := MemoText(id, slot, timestamp);
    var line := MemoLogLine(memo);
    FirstMemoLine(before, line, after);
    MemoParts(id, slot, timestamp);
    var head := MEMO_LOG_PREFIX + " (len " + Decimal(|memo|) + "): ";
    DecimalFree(|memo|, '"');
    SplitFirst(head, '"', memo + ['"']);
    SplitFirst(memo, '"', []);
    assert line == head + ['"'] + (memo + ['"']);
    assert memo + ['"'] + [] == memo + ['"'];
    assert Split(line, '"')[1] == memo;
    ParseDecimal(id, U64_MAX);
    ParseDecimal(slot, U64_MAX);
    ParseDecimal(timestamp, U64_MAX);
  }

  /** Line `i` is the first memo line of the log. */
  ghost predicate IsFirstMemo(logs: seq<string>, i: nat) {
    i < |logs| && IsMemoLine(logs[i]) && forall j :: 0 <= j < i ==> !IsMemoLine(logs[j])
  }

  /** The line extracted is the first memo line, and there is none exactly when the log has none. */
  lemma ExtractMeaning(logs: seq<string>)
    ensures forall i: nat :: IsFirstMemo(logs, i) ==> ExtractMemoLine(logs) == Some(logs[i])
    ensures ExtractMemoLine(logs) == None <==> forall i: nat :: !IsFirstMemo(logs, i)
  {
    if logs != [] {
      if IsMemoLine(logs[0]) {
        assert IsFirstMemo(logs, 0);
      } else {
        ExtractMeaning(logs[1..]);
        forall i: nat | i < |logs| - 1 ensures IsFirstMemo(logs[1..], i) <==> IsFirstMemo(logs, i + 1) {
          assert forall j :: 0 <= j < |logs| - 1 ==> logs[1..][j] == logs[j + 1];
        }
        forall i: nat | IsFirstMemo(logs, i) ensures i > 0 && IsFirstMemo(logs[1..], i - 1) {}
        if ExtractMemoLine(logs) != None {
          var i: nat :| IsFirstMemo(logs[1..], i);
          assert IsFirstMemo(logs, i + 1);
        }
      }
    }
  }

  /** The log holds the parts, joined by commas, right after its first quote and up to the next one or the end. */
  ghost predicate Quotes(log: string, before: string, parts: seq<string>, after: string) {
    && log == before + (['"'] + (Join(parts, ',') + after)) && Free(before, '"')
    && |parts| >= 1 && (forall p :: p in parts ==> Free(p, ',') && Free(p, '"'))
    && (after == [] || after[0] == '"')
  }

  lemma QuotesSplit(log: string, before: string, parts: seq<string>, after: string)
    requires Quotes(log, before, parts, after)
    ensures |Split(log, '"')| >= 2 && Split(Split(log, '"')[1], ',') == parts
  {
    var memo := Join(parts, ',');
    JoinFree(parts, ',', '"');
    SplitFirst(before, '"', memo + after);
    assert log == before + ['"'] + (memo + after);
    if after == [] {
      assert memo + after == memo;
      SplitFree(memo, '"');
    } else {
      SplitFirst(memo, '"', after[1..]);
      assert memo + after == memo + ['"'] + after[1..];
    }
    SplitJoin(parts, ',');
  }

  lemma SplitQuotes(log: string) returns (before: string, parts: seq<string>, after: string)
    requires |Split(log, '"')| >= 2
    ensures Quotes(log, before, parts, after) && parts == Split(Split(log, '"')[1], ',')
  {
    JoinSplit(log, '"');
    before, parts, after := PiecesQuote(log, Split(log, '"'));
  }

  lemma PiecesQuote(log: string, quotes: seq<string>) returns (before: string, parts: seq<string>, after: string)
    requires |quotes| >= 2 && Join(quotes, '"') == log && forall p :: p in quotes ==> Free(p, '"')
    ensures Quotes(log, before, parts, after) && parts == Split(quotes[1], ',')
  {
    var memo := quotes[1];
    assert quotes[0] in quotes && memo in quotes;
    before, parts := quotes[0], Split(memo, ',');
    after := AfterSecond(quotes);
    JoinSplit(memo, ',');
    forall p | p in parts ensures Free(p, '"') {
      PartsAreFree(memo, ',', '"', p);
    }
  }

  /** Two pieces and what follows them. */
  lemma AfterSecond(quotes: seq<string>) returns (after: string)
    requires |quotes| >= 2
    ensures Join(quotes, '"') == quotes[0] + (['"'] + (quotes[1] + after)) && (after == [] || after[0] == '"')
  {
    var rest := quotes[1..];
    after := if |quotes| == 2 then [] else ['"'] + Join(rest[1..], '"');
    assert Join(rest, '"') == quotes[1] + after;
    assert quotes[0] + ['"'] + Join(rest, '"') == quotes[0] + (['"'] + Join(rest, '"'));
  }

  lemma {:induction false} PartsAreFree(s: string, sep: char, c: char, p: string)
    requires p in Split(s, sep) && Free(s, c)
    ensures Free(p, c)
  {
    if s != [] {
      var rest := Split(s[1..], sep);
      if p in rest {
        PartsAreFree(s[1..], sep, c, p);
      } else if s[0] != sep {
        assert p == [s[0]] + rest[0];
        PartsAreFree(s[1..], sep, c, rest[0]);
      }
    }
  }

  /**
   Exactly which log lines are read as a memo: those with three numbers after the first quote, separated by
   commas, whatever surrounds the quoted text and follows the third number.
   */
  lemma ParseMemoExactly(log: string, id: nat, slot: nat, timestamp: nat)
    ensures ParseMemoLog(log) == Some((id, slot, timestamp)) <==>
            id <= U64_MAX && slot <= U64_MAX && timestamp <= U64_MAX
            && exists before, parts, after ::
                 && Quotes(log, before, parts, after) && |parts| >= 3
                 && IsNumeral(parts[0], id) && IsNumeral(parts[1], slot) && IsNumeral(parts[2], timestamp)
  {
    if ParseMemoLog(log) == Some((id, slot, timestamp)) {
      var before, parts, after := SplitQuotes(log);
      ParseMeaning(parts[0], U64_MAX, id);
      ParseMeaning(parts[1], U64_MAX, slot);
      ParseMeaning(parts[2], U64_MAX, timestamp);
    }
    if id <= U64_MAX && slot <= U64_MAX && timestamp <= U64_MAX
       && exists before, parts, after ::
            && Quotes(log, before, parts, after) && |parts| >= 3
            && IsNumeral(parts[0], id) && IsNumeral(parts[1], slot) && IsNumeral(parts[2], timestamp)
    {
      var before, parts, after :|
        && Quotes(log, before, parts, after) && |parts| >= 3
        && IsNumeral(parts[0], id) && IsNumeral(parts[1], slot) && IsNumeral(parts[2], timestamp);
      QuotesSplit(log, before, parts, after);
      ParseMeaning(parts[0], U64_MAX, id);
      ParseMeaning(parts[1], U64_MAX, slot);
      ParseMeaning(parts[2], U64_MAX, timestamp);
    }
  }

  /** For instance. */
  lemma MemoExample()
    ensures MemoLogLine(MemoText(7, 12, 345)) == "Program log: Memo (len 8): \"7,12,345\""
  {
    assert Decimal(7) == "7";
    assert Decimal(8) == "8";
    assert Decimal(12) == "12";
    assert Decimal(34) == "34";
    assert Decimal(345) == "345";
    assert MemoText(7, 12, 345) == "7,12,345";
  }
}
