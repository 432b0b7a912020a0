/** The lines the firmware prints, as mlogger's and powerdb's two tokenizers read them. */
module MeterLines {
  import opened Text
  import opened LogFiles
  import opened PowerDb
  import opened Pipeline
  import opened Readers
  import opened MeterReader

  // ---------- Numbers and words ----------

  function Pow10(k: nat): nat
  {
    if k == 0 then 1 else 10 * Pow10(k - 1)
  }

  lemma {:induction false} ItoaLength(n: nat, k: nat)
    requires k > 0 && n < Pow10(k)
    ensures |Itoa(n)| <= k
  {
    if n >= 10 {
      ItoaLength(n / 10, k - 1);
    }
  }

  lemma ItoaShort(n: nat)
    requires n < U32
    ensures |Itoa(n)| <= 10
  {
    assert Pow10(2) == 100;
    assert Pow10(4) == 10000;
    assert Pow10(6) == 1000000;
    assert Pow10(8) == 100000000;
    assert Pow10(10) == 10000000000;
    ItoaLength(n, 10);
  }

  /** Neither separators nor line ends nor NULs occur in a word. */
  predicate IsWord(w: string)
  {
    w != "" && forall c :: c in w ==> c != ' ' && c != '\n' && c != '\r' && c != '\0'
  }

  lemma ItoaIsWord(n: nat)
    ensures IsWord(Itoa(n))
  {
    ItoaDigits(n);
  }

  // ---------- Lines of words ----------

  function Spaced(words: seq<string>): string
    requires words != []
  {
    if |words| == 1 then words[0] else words[0] + [' '] + Spaced(words[1..])
  }

  ghost predicate AllWords(words: seq<string>)
  {
    forall i :: 0 <= i < |words| ==> IsWord(words[i])
  }

  lemma {:induction false} SpacedFields(words: seq<string>, eol: string)
    requires words != [] && AllWords(words) && ' ' !in eol
    ensures SplitOn(Spaced(words) + eol, ' ') == words[..|words| - 1] + [words[|words| - 1] + eol]
  {
    if |words| == 1 {
      SplitOnFree(words[0] + eol, ' ');
    } else {
      var rest := words[1..];
      SpacedFields(rest, eol);
      AppendAssoc(words[0] + [' '], Spaced(rest), eol);
      SplitOnFirst(words[0], ' ', Spaced(rest) + eol);
      assert [words[0]] + (rest[..|rest| - 1] + [rest[|rest| - 1] + eol])
          == words[..|words| - 1] + [words[|words| - 1] + eol];
    }
  }

  lemma {:induction false} SpacedPlain(words: seq<string>)
    requires words != [] && AllWords(words)
    ensures forall c :: c in Spaced(words) ==> c != '\n' && c != '\r' && c != '\0'
  {
    if |words| > 1 {
      SpacedPlain(words[1..]);
    }
  }

  lemma {:induction false} NonEmptyAll(ss: seq<string>)
    requires forall i :: 0 <= i < |ss| ==> ss[i] != ""
    ensures NonEmpty(ss) == ss
  {
    if ss != [] {
      NonEmptyAll(ss[1..]);
    }
  }

  /** Both readers see the words; mlogger's last token keeps the line end. */
  lemma ReadWords(words: seq<string>)
    requires words != [] && AllWords(words)
    ensures var line := Spaced(words) + "\r\n";
            && IsLine(line)
            && SplitOn(DropEol(line), ' ') == words
            && Tokens(line) == words[..|words| - 1] + [words[|words| - 1] + "\r\n"]
  {
    SpacedPlain(words);
    CrLfLine(Spaced(words));
    PlainFields(words);
    WordTokens(words);
  }

  lemma WordTokens(words: seq<string>)
    requires words != [] && AllWords(words)
    requires UpToNul(Spaced(words) + "\r\n") == Spaced(words) + "\r\n"
    ensures Tokens(Spaced(words) + "\r\n") == words[..|words| - 1] + [words[|words| - 1] + "\r\n"]
  {
    var ss := words[..|words| - 1] + [words[|words| - 1] + "\r\n"];
    SpacedFields(words, "\r\n");
    forall i | 0 <= i < |ss|
      ensures ss[i] != ""
    {
      if i < |words| - 1 {
        assert ss[i] == words[i];
      } else {
        assert |ss[i]| >= 2;
      }
    }
    NonEmptyAll(ss);
  }

  lemma PlainFields(words: seq<string>)
    requires words != [] && AllWords(words)
    ensures SplitOn(Spaced(words), ' ') == words
  {
    SpacedFields(words, "");
    AppendEmpty(Spaced(words));
    AppendEmpty(words[|words| - 1]);
    LastApart(words);
  }

  lemma LastApart(words: seq<string>)
    requires words != []
    ensures words[..|words| - 1] + [words[|words| - 1]] == words
  {
  }

  lemma CrLfLine(s: string)
    requires forall c :: c in s ==> c != '\n' && c != '\r' && c != '\0'
    ensures IsLine(s + "\r\n") && DropEol(s + "\r\n") == s && UpToNul(s + "\r\n") == s + "\r\n"
  {
    var line := s + "\r\n";
    assert line[..|line| - 1] == s + "\r";
    assert (s + "\r")[..|s + "\r"| - 1] == s;
    UpToNulFree(line);
  }

  // ---------- The firmware's lines ----------

  function WordsOf(p: Print): seq<string>
  {
    match p
    case Hi => ["Hi"]
    case Water(level) => ["WATER", if level then "1" else "0"]
    case Ldr(now, watts) => [Itoa(now), "LDR", Itoa(watts)]
    case FalsePulse(now, delta, last) => [Itoa(now), "FP_PULSE", Itoa(delta), Itoa(last)]
    case Pulse(now, first) => [Itoa(now), "PULSE", Itoa(first)]
  }

  lemma RenderIsWords(p: Print)
    ensures AllWords(WordsOf(p)) && WordsOf(p) != [] && Render(p) == Spaced(WordsOf(p)) + "\r\n"
  {
    match p
    case Hi =>
    case Water(level) =>
      SpacedTwo("WATER", if level then "1" else "0");
    case Ldr(now, watts) =>
      LdrWords(now, watts);
    case FalsePulse(now, delta, last) =>
      FalsePulseWords(now, delta, last);
    case Pulse(now, first) =>
      PulseWords(now, first);
  }

  lemma LdrWords(now: nat, watts: nat)
    ensures AllWords(WordsOf(Ldr(now, watts)))
    ensures Render(Ldr(now, watts)) == Spaced(WordsOf(Ldr(now, watts))) + "\r\n"
  {
    NumberTagNumber(now, "LDR", watts);
    assert " LDR " == " " + "LDR" + " ";
  }

  lemma PulseWords(now: nat, first: nat)
    ensures AllWords(WordsOf(Pulse(now, first)))
    ensures Render(Pulse(now, first)) == Spaced(WordsOf(Pulse(now, first))) + "\r\n"
  {
    NumberTagNumber(now, "PULSE", first);
    assert " PULSE " == " " + "PULSE" + " ";
  }

  lemma FalsePulseWords(now: nat, delta: nat, last: nat)
    ensures AllWords(WordsOf(FalsePulse(now, delta, last)))
    ensures Render(FalsePulse(now, delta, last)) == Spaced(WordsOf(FalsePulse(now, delta, last))) + "\r\n"
  {
    ItoaIsWord(now);
    ItoaIsWord(delta);
    ItoaIsWord(last);
    SpacedFour(Itoa(now), "FP_PULSE", Itoa(delta), Itoa(last));
    assert " FP_PULSE " == " " + "FP_PULSE" + " ";
  }

  lemma NumberTagNumber(a: nat, tag: string, b: nat)
    requires IsWord(tag)
    ensures AllWords([Itoa(a), tag, Itoa(b)])
    ensures Spaced([Itoa(a), tag, Itoa(b)]) == Itoa(a) + (" " + tag + " ") + Itoa(b)
  {
    ItoaIsWord(a);
    ItoaIsWord(b);
    SpacedThree(Itoa(a), tag, Itoa(b));
  }

  lemma SpacedTwo(a: string, b: string)
    ensures Spaced([a, b]) == a + " " + b
  {
    assert [a, b][1..] == [b];
  }

  lemma SpacedThree(a: string, b: string, c: string)
    ensures Spaced([a, b, c]) == a + (" " + b + " ") + c
  {
    assert [a, b, c][1..] == [b, c];
    SpacedTwo(b, c);
  }

  lemma SpacedFour(a: string, b: string, c: string, d: string)
    ensures Spaced([a, b, c, d]) == a + (" " + b + " ") + c + " " + d
  {
    assert [a, b, c, d][1..] == [b, c, d];
    SpacedThree(b, c, d);
  }

  /** How the readers' verdicts follow from the second word of a line of three words or more. */
  lemma SecondWordDecides(words: seq<string>)
    requires |words| >= 3 && AllWords(words)
    ensures var line := Spaced(words) + "\r\n";
            && IsLine(line)
            && (DbCounts(line) <==> words[1] == "PULSE")
            && TypeToken(line) == Some(words[1]) && DataToken(line).Some?
            && (|words| == 3 ==> DataToken(line).value == words[2] + "\r\n")
  {
    ReadWords(words);
  }

  lemma ShortLineCountsNothing(words: seq<string>)
    requires 1 <= |words| <= 2 && AllWords(words)
    requires words[0] != "PULSE" && (|words| == 2 ==> |words[1]| == 1)
    ensures var line := Spaced(words) + "\r\n";
            && IsLine(line)
            && !DbCounts(line) && !CountsPulse(line) && !CountsFalsePulse(line) && !SetsWatts(line)
  {
    ReadWords(words);
    if |words| == 2 {
      var line := Spaced(words) + "\r\n";
      assert TypeToken(line) == Some(words[1] + "\r\n");
      assert (words[1] + "\r\n")[1] == '\r';
    }
  }

  lemma Tags()
    ensures HasPrefix("PULSE", "PULSE") && HasPrefix("FP_PULSE", "FP_PULSE") && HasPrefix("LDR", "LDR")
    ensures !HasPrefix("FP_PULSE", "PULSE") && !HasPrefix("LDR", "PULSE") && !HasPrefix("LDR", "FP_PULSE")
    ensures "FP_PULSE" != "PULSE" && "LDR" != "PULSE"
  {
    assert "FP_PULSE"[0] == 'F' && "PULSE"[0] == 'P' && "LDR"[0] == 'L';
  }

  /** The two programs agree on every line of the firmware, and on what it says. */
  lemma LinesMean(p: Print)
    ensures IsLine(Render(p))
    ensures CountsPulse(Render(p)) <==> p.Pulse?
    ensures DbCounts(Render(p)) <==> p.Pulse?
    ensures CountsFalsePulse(Render(p)) <==> p.FalsePulse?
    ensures SetsWatts(Render(p)) <==> p.Ldr?
    ensures p.Ldr? ==> forall c :: WattsOf(Render(p), c) == p.watts
  {
    RenderIsWords(p);
    match p
    case Hi => ShortLineCountsNothing(WordsOf(p));
    case Water(level) => ShortLineCountsNothing(WordsOf(p));
    case Ldr(now, watts) =>
      SecondWordDecides(WordsOf(p));
      Tags();
      LdrMeans(now, watts);
    case FalsePulse(now, delta, last) =>
      SecondWordDecides(WordsOf(p));
      Tags();
    case Pulse(now, first) =>
      SecondWordDecides(WordsOf(p));
      Tags();
  }

  /** A line of the firmware is far below the framer's and the logger's limits. */
  lemma LinesShort(p: Print)
    requires Printable(p)
    ensures |Render(p)| <= 50
  {
    match p
    case Hi =>
    case Water(level) =>
    case Ldr(now, watts) =>
      ItoaShort(now);
      ItoaShort(watts);
    case FalsePulse(now, delta, last) =>
      ItoaShort(now);
      ItoaShort(delta);
      ItoaShort(last);
    case Pulse(now, first) =>
      ItoaShort(now);
      ItoaShort(first);
  }

  lemma AtoiOfItoa(n: nat)
    ensures Atoi(Itoa(n) + "\r\n") == n
  {
    ItoaDigits(n);
    DigitPrefixStops(Itoa(n), "\r\n");
    assert (Itoa(n) + "\r\n")[0] == Itoa(n)[0];
  }

  /** The value is a number, so no leftover byte can change it. */
  lemma LdrMeans(now: nat, watts: nat)
    requires var line := Render(Ldr(now, watts));
             && IsLine(line) && SetsWatts(line) && |Tokens(line)| > 2 && Tokens(line)[2] == Itoa(watts) + "\r\n"
    ensures forall c :: WattsOf(Render(Ldr(now, watts)), c) == watts
  {
    ItoaDigits(watts);
    AtoiOfItoa(watts);
    assert IsDigit((Itoa(watts) + "\r\n")[0]);
    LeftoverShowsIff(Render(Ldr(now, watts)));
  }

  /** So every line of the firmware is read alike, and none is lost. */
  lemma LinesPlain(p: Print)
    requires Printable(p)
    ensures Plain(Render(p))
  {
    LinesMean(p);
    LinesShort(p);
    RenderIsWords(p);
    SpacedPlain(WordsOf(p));
    ReadersAgreeIff(Render(p));
  }

  /** How both programs judge a line of words. */
  lemma WordVerdicts(words: seq<string>)
    requires words != [] && AllWords(words)
    ensures var line := Spaced(words) + "\r\n";
            && (CountsPulse(line) <==> |words| > 1 && HasPrefix(words[1], "PULSE"))
            && (DbCounts(line) <==> words[if |words| >= 3 then 1 else 0] == "PULSE")
  {
    ReadWords(words);
    TagOfWords(Spaced(words) + "\r\n", words);
  }

  lemma TagOfWords(line: string, words: seq<string>)
    requires words != [] && Tokens(line) == words[..|words| - 1] + [words[|words| - 1] + "\r\n"]
    ensures CountsPulse(line) <==> |words| > 1 && HasPrefix(words[1], "PULSE")
  {
    PrefixStops("PULSE", words[|words| - 1], "\r\n");
  }

  /** A line of words is read alike exactly if: a single word is not the tag; of two words the first is the tag
      exactly if the second starts with it; of more words the second does not merely start with it. */
  lemma WordsAgreeIff(words: seq<string>)
    requires words != [] && AllWords(words)
    ensures var line := Spaced(words) + "\r\n";
            (CountsPulse(line) <==> DbCounts(line)) <==>
            if |words| == 1 then words[0] != "PULSE"
            else if |words| == 2 then words[0] == "PULSE" <==> HasPrefix(words[1], "PULSE")
            else HasPrefix(words[1], "PULSE") ==> words[1] == "PULSE"
  {
    WordVerdicts(words);
  }

  /** Three kinds of lines the firmware does not print and the programs read differently: "7 PULSE" and
      "7 PULSEX 1" are pulses for mlogger only, and what is left of a line cut after its stamp, "PULSE 7", is
      one for powerdb only. */
  lemma ReadersCanDiffer()
    ensures CountsPulse(Spaced(["7", "PULSE"]) + "\r\n") && !DbCounts(Spaced(["7", "PULSE"]) + "\r\n")
    ensures CountsPulse(Spaced(["7", "PULSEX", "1"]) + "\r\n") && !DbCounts(Spaced(["7", "PULSEX", "1"]) + "\r\n")
    ensures !CountsPulse(Spaced(["PULSE", "7"]) + "\r\n") && DbCounts(Spaced(["PULSE", "7"]) + "\r\n")
  {
    assert IsWord("7") && IsWord("1") && IsWord("PULSE") && IsWord("PULSEX");
    assert HasPrefix("PULSE", "PULSE") && HasPrefix("PULSEX", "PULSE") && !HasPrefix("7", "PULSE");
    assert "7" != "PULSE" && "PULSEX" != "PULSE";
    WordVerdicts(["7", "PULSE"]);
    WordVerdicts(["PULSE", "7"]);
    WordVerdicts(["7", "PULSEX", "1"]);
  }
}
