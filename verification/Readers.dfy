/** When the two programs that count pulses agree about a line: mlogger takes the words of the line and compares
    a prefix of the second, powerdb takes the fields between single spaces and compares one of them whole. */
module Readers {
  import opened Text
  import opened LogFiles
  import opened PowerDb
  import opened Pipeline

  // ---------- Fields and words ----------

  /** Text without separators lengthens the last field. */
  lemma {:induction false} SplitOnTail(s: string, fields: seq<string>, last: string, x: string, sep: char)
    requires SplitOn(s, sep) == fields + [last] && sep !in x
    ensures SplitOn(s + x, sep) == fields + [last + x]
    decreases |x|
  {
    if x == "" {
      AppendEmpty(s);
      AppendEmpty(last);
    } else {
      LastGrows(s, fields, last, x[0], sep);
      SplitOnTail(s + [x[0]], fields, last + [x[0]], x[1..], sep);
      assert (s + [x[0]]) + x[1..] == s + x;
      assert (last + [x[0]]) + x[1..] == last + x;
    }
  }

  lemma LastGrows(s: string, fields: seq<string>, last: string, c: char, sep: char)
    requires SplitOn(s, sep) == fields + [last] && c != sep
    ensures SplitOn(s + [c], sep) == fields + [last + [c]]
  {
    SplitOnSnoc(s, c, sep);
    var p := fields + [last];
    assert p[..|p| - 1] == fields;
  }

  /** The words mlogger sees in a line: the non-empty fields, and the last field in any case, for the line end
      sticks to it. */
  function WordsIn(fields: seq<string>): (words: seq<string>)
    requires fields != []
    ensures words != []
  {
    if |fields| == 1 then fields
    else if fields[0] == "" then WordsIn(fields[1..])
    else [fields[0]] + WordsIn(fields[1..])
  }

  lemma {:induction false} WordsInAre(fields: seq<string>)
    requires fields != []
    ensures WordsIn(fields) == NonEmpty(fields[..|fields| - 1]) + [fields[|fields| - 1]]
  {
    if |fields| > 1 {
      var init := fields[..|fields| - 1];
      assert init[1..] == fields[1..][..|fields| - 2];
      WordsInAre(fields[1..]);
    }
  }

  function LineEnd(line: string): string
  {
    line[|DropEol(line)|..]
  }

  lemma TokensAreWords(line: string)
    requires IsLine(line) && '\0' !in line
    ensures var words := WordsIn(SplitOn(DropEol(line), ' '));
            Tokens(line) == words[..|words| - 1] + [words[|words| - 1] + LineEnd(line)]
    ensures LineEnd(line) == "\n" || LineEnd(line) == "\r\n"
  {
    var text := DropEol(line);
    var eol := LineEnd(line);
    var fields := SplitOn(text, ' ');
    var n := |fields| - 1;
    assert line == text + eol;
    assert eol == "\n" || eol == "\r\n";
    UpToNulFree(line);
    SplitOnTail(text, fields[..n], fields[n], eol, ' ');
    NonEmptySnoc(fields[..n], fields[n] + eol);
    WordsInAre(fields);
    var words := WordsIn(fields);
    assert words[..|words| - 1] == NonEmpty(fields[..n]);
  }

  /** The second word starts with the tag. */
  predicate SecondIsPulse(words: seq<string>)
  {
    |words| > 1 && HasPrefix(words[1], "PULSE")
  }

  lemma CountsBySecondWord(line: string)
    requires IsLine(line) && '\0' !in line
    ensures CountsPulse(line) <==> SecondIsPulse(WordsIn(SplitOn(DropEol(line), ' ')))
  {
    var words := WordsIn(SplitOn(DropEol(line), ' '));
    TokensAreWords(line);
    PrefixStops("PULSE", words[|words| - 1], LineEnd(line));
  }

  // ---------- Agreement ----------

  /** The field from the k-th on that holds the next word: the first one not empty, or else the last. */
  function NextWord(fields: seq<string>, k: nat): (j: nat)
    requires k < |fields|
    ensures k <= j < |fields|
    decreases |fields| - k
  {
    if fields[k] != "" || k == |fields| - 1 then k else NextWord(fields, k + 1)
  }

  /** Whether the word after the one in this field starts with the tag. */
  predicate TagBehind(fields: seq<string>, first: nat)
  {
    first < |fields| - 1 && HasPrefix(fields[NextWord(fields, first + 1)], "PULSE")
  }

  /** The condition on the fields of a line.  With three fields or more, the first two not empty, both programs
      look at the second field, and it must not merely start with the tag.  With a stray space before or behind
      the first word powerdb looks at the second field still, mlogger at the next word behind it: the one must be
      the tag exactly if the other starts with it.  With two stray spaces in front the second field is empty, and
      the second word must not start with the tag.  On shorter lines powerdb looks at the first field. */
  predicate ReadAlike(fields: seq<string>)
    requires fields != []
  {
    if |fields| == 1 then fields[0] != "PULSE"
    else if |fields| == 2 then fields[0] == "" || (fields[0] == "PULSE" <==> HasPrefix(fields[1], "PULSE"))
    else if fields[0] != "" && fields[1] != "" then HasPrefix(fields[1], "PULSE") ==> fields[1] == "PULSE"
    else if fields[0] != "" || fields[1] != "" then
      fields[1] == "PULSE" <==> HasPrefix(fields[NextWord(fields, 2)], "PULSE")
    else !TagBehind(fields, NextWord(fields, 2))
  }

  lemma {:induction false} WordsFrom(fields: seq<string>, k: nat)
    requires k < |fields|
    ensures var j := NextWord(fields, k);
            WordsIn(fields[k..]) == [fields[j]] + if j == |fields| - 1 then [] else WordsIn(fields[j + 1..])
    decreases |fields| - k
  {
    var rest := fields[k..];
    assert rest[0] == fields[k];
    if k < |fields| - 1 {
      assert rest[1..] == fields[k + 1..];
      if fields[k] == "" {
        WordsFrom(fields, k + 1);
      }
    }
  }

  lemma SecondWordAt(fields: seq<string>)
    requires fields != []
    ensures SecondIsPulse(WordsIn(fields)) <==> TagBehind(fields, NextWord(fields, 0))
  {
    var first := NextWord(fields, 0);
    assert fields[0..] == fields;
    WordsFrom(fields, 0);
    if first < |fields| - 1 {
      WordsFrom(fields, first + 1);
      SecondOf([fields[first]], WordsIn(fields[first + 1..]));
    }
  }

  lemma SecondOf(a: seq<string>, b: seq<string>)
    requires |a| == 1 && b != []
    ensures SecondIsPulse(a + b) <==> HasPrefix(b[0], "PULSE")
  {
  }

  lemma NextWords(fields: seq<string>)
    requires |fields| >= 3
    ensures fields[0] != "" ==> NextWord(fields, 0) == 0
    ensures fields[0] == "" ==> NextWord(fields, 0) == NextWord(fields, 1)
    ensures fields[1] != "" ==> NextWord(fields, 1) == 1
    ensures fields[1] == "" ==> NextWord(fields, 1) == NextWord(fields, 2)
  {
  }

  /** With three fields or more: where mlogger finds its tag. */
  lemma SecondOfMany(fields: seq<string>)
    requires |fields| >= 3
    ensures SecondIsPulse(WordsIn(fields)) <==>
            if fields[0] != "" && fields[1] != "" then HasPrefix(fields[1], "PULSE")
            else if fields[0] != "" || fields[1] != "" then HasPrefix(fields[NextWord(fields, 2)], "PULSE")
            else TagBehind(fields, NextWord(fields, 2))
  {
    SecondWordAt(fields);
    NextWords(fields);
    if fields[0] != "" {
      assert TagBehind(fields, 0) <==> HasPrefix(fields[NextWord(fields, 1)], "PULSE");
    } else if fields[1] != "" {
      assert TagBehind(fields, 1) <==> HasPrefix(fields[NextWord(fields, 2)], "PULSE");
    } else {
      assert NextWord(fields, 0) == NextWord(fields, 2);
    }
  }

  /** mlogger and powerdb agree whether a line is a pulse if and only if its fields meet the condition. */
  lemma ReadersAgreeIff(line: string)
    requires IsLine(line) && '\0' !in line
    ensures (CountsPulse(line) <==> DbCounts(line)) <==> ReadAlike(SplitOn(DropEol(line), ' '))
  {
    var fields := SplitOn(DropEol(line), ' ');
    CountsBySecondWord(line);
    if |fields| == 1 {
      assert fields[..0] == [];
    } else if |fields| == 2 {
      assert fields[..1] == [] + [fields[0]];
      NonEmptySnoc([], fields[0]);
      assert WordsIn(fields) == if fields[0] == "" then [fields[1]] else [fields[0], fields[1]];
    } else {
      SecondOfMany(fields);
      assert fields[1] == "PULSE" ==> HasPrefix(fields[1], "PULSE");
    }
  }

  // ---------- The counter and the table ----------

  /** A line both programs read alike and mlogger survives. */
  predicate Plain(line: string)
  {
    IsLine(line) && '\0' !in line && |line| <= MAX_LOGGED && ReadAlike(SplitOn(DropEol(line), ' '))
  }

  ghost predicate AllPlain(records: seq<Record>)
  {
    forall i :: 0 <= i < |records| ==> Plain(records[i].line)
  }

  ghost predicate AllWithin(records: seq<Record>, start: int, end: int)
  {
    forall i :: 0 <= i < |records| ==> start <= records[i].now < end
  }

  lemma {:induction false} PlainCounts(records: seq<Record>, start: int, end: int)
    requires AllPlain(records) && AllWithin(records, start, end)
    ensures CountRecords(records, start, end) == Seen(records)
  {
    if records != [] {
      var n := |records| - 1;
      PlainCounts(records[..n], start, end);
      assert Plain(records[n].line);
      ReadersAgreeIff(records[n].line);
    }
  }

  /** Once the table covers all stamps, its total is what mlogger's processes have counted together, whatever
      the lines are, as long as the two programs read them alike. */
  lemma CountersMeetTable(env: Env, evs: seq<Event>, off: int)
    requires Healthy(env, evs, off) && AllPlain(Records(env, evs))
    requires AllWithin(Records(env, evs), Sentinel(off), CoveredUntil(RowsAfter(env, evs, off), off))
    ensures TotalWh(RowsAfter(env, evs, off)) == TotalCounted(env, evs)
  {
    PulsesConserved(env, evs, off);
    CountersSeeRecords(env, evs);
    PlainCounts(Records(env, evs), Sentinel(off), CoveredUntil(RowsAfter(env, evs, off), off));
  }
}
