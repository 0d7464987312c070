/**
 * `Extensions.Shuffle`: the Fisher–Yates shuffle of a list in place.
 * The random generator is replaced by the sequence of its draws: draw `t`
 * is the value `rng.Next(n + 1)` returned at the `t`-th step.
 */
module Extensions {

  /** `s` with the elements at `i` and `j` exchanged. */
  function Swap<T>(s: seq<T>, i: nat, j: nat): (r: seq<T>)
    requires i < |s| && j < |s|
    ensures |r| == |s| && r[i] == s[j] && r[j] == s[i]
    ensures forall m :: 0 <= m < |s| && m != i && m != j ==> r[m] == s[m]
  {
    s[i := s[j]][j := s[i]]
  }

  /** Each draw lies where `rng.Next(n + 1)` puts it: step `t` picks in `[0, length - 1 - t]`. */
  predicate ValidDraws(draws: seq<int>, length: nat)
  {
    (length <= 1 || length - 1 <= |draws|)
    && forall t :: 0 <= t < |draws| && t < length - 1 ==> 0 <= draws[t] <= length - 1 - t
  }

  /**
   * The list the remaining steps produce when the countdown stands at `n`:
   * while `n > 1`, `n` goes down by one and the element at `n` is exchanged
   * with the one at the next draw.
   */
  ghost function FisherYates<T>(s: seq<T>, n: nat, draws: seq<int>): seq<T>
    requires n <= |s| && ValidDraws(draws, |s|)
    decreases n
  {
    if n <= 1 then s
    else FisherYates(Swap(s, draws[|s| - n], n - 1), n - 1, draws)
  }

  /**
   * The shuffle keeps the length and the multiset of elements, never
   * touches the positions the countdown has passed, and leaves lists of
   * length at most one alone.
   */
  lemma {:induction false} FisherYatesPermutes<T>(s: seq<T>, n: nat, draws: seq<int>)
    requires n <= |s| && ValidDraws(draws, |s|)
    ensures |FisherYates(s, n, draws)| == |s|
    ensures multiset(FisherYates(s, n, draws)) == multiset(s)
    ensures forall j :: n <= j < |s| ==> FisherYates(s, n, draws)[j] == s[j]
    ensures n <= 1 ==> FisherYates(s, n, draws) == s
    decreases n
  {
    if n > 1 {
      var k := draws[|s| - n];
      var t := Swap(s, k, n - 1);
      FisherYatesPermutes(t, n - 1, draws);
      SwapPermutes(s, k, n - 1);
    }
  }

  lemma SwapPermutes<T>(s: seq<T>, i: nat, j: nat)
    requires i < |s| && j < |s|
    ensures multiset(Swap(s, i, j)) == multiset(s)
  {
    var a := s[i := s[j]];
    assert multiset(a) == multiset(s) - multiset{s[i]} + multiset{s[j]};
    assert multiset(a[j := s[i]]) == multiset(a) - multiset{a[j]} + multiset{s[i]};
  }

  /** The final position `n - 1` of each step holds the element the step's draw picked. */
  lemma FisherYatesPicks<T>(s: seq<T>, n: nat, draws: seq<int>)
    requires 2 <= n <= |s| && ValidDraws(draws, |s|)
    ensures |FisherYates(s, n, draws)| == |s| && FisherYates(s, n, draws)[n - 1] == s[draws[|s| - n]]
  {
    var t := Swap(s, draws[|s| - n], n - 1);
    FisherYatesPermutes(t, n - 1, draws);
  }

  /** `Shuffle`: the countdown loop, exchanging in place. */
  method Shuffle<T>(a: array<T>, draws: seq<int>)
    requires ValidDraws(draws, a.Length)
    modifies a
    ensures a[..] == FisherYates(old(a[..]), a.Length, draws)
    ensures multiset(a[..]) == multiset(old(a[..]))
  {
    ghost var target := FisherYates(a[..], a.Length, draws);
    var n := a.Length;
    while n > 1
      invariant 0 <= n <= a.Length
      invariant FisherYates(a[..], n, draws) == target
    {
      FisherYatesStep(a[..], n, draws);
      var k := draws[a.Length - n];
      n := n - 1;
      Exchange(a, k, n);
    }
    FisherYatesPermutes(old(a[..]), a.Length, draws);
  }

  /** One step of the countdown: exchange, then carry on from one lower. */
  lemma FisherYatesStep<T>(s: seq<T>, n: nat, draws: seq<int>)
    requires 2 <= n <= |s| && ValidDraws(draws, |s|)
    ensures 0 <= draws[|s| - n] < n
    ensures FisherYates(s, n, draws) == FisherYates(Swap(s, draws[|s| - n], n - 1), n - 1, draws)
  {
  }

  /** One exchange of the shuffle, in place. */
  method Exchange<T>(a: array<T>, i: nat, j: nat)
    requires i < a.Length && j < a.Length
    modifies a
    ensures a[..] == Swap(old(a[..]), i, j)
  {
    var value := a[i];
    a[i] := a[j];
    a[j] := value;
  }
}

/**
 * `Study`: a blind study runs, once per session, every configuration in a
 * shuffled order, and counts the sessions it has completed.
 */
module Studies {
  import opened Results
  import opened Extensions

  /** `Configuration`: whether the run keeps its changes, and its name (`null` for the user's own data). */
  datatype Configuration = Configuration(saveChanges: bool, name: Option<string>)

  /** The indices `0 .. count - 1`, in order. */
  function Indices(count: nat): (r: seq<int>)
    ensures |r| == count && forall i :: 0 <= i < count ==> r[i] == i
  {
    seq(count, i => i)
  }

  /** A shuffled index list runs each configuration exactly once, and nothing else. */
  lemma {:induction false} EachIndexOnce(runs: seq<int>, count: nat)
    requires multiset(runs) == multiset(Indices(count))
    ensures |runs| == count
    ensures forall i :: 0 <= i < count ==> multiset(runs)[i] == 1
    ensures forall t :: 0 <= t < |runs| ==> 0 <= runs[t] < count
  {
    assert |runs| == |multiset(runs)| == |multiset(Indices(count))| == count;
    forall i | 0 <= i < count
      ensures multiset(runs)[i] == 1
    {
      IndicesCountOnce(count, i);
    }
    forall t | 0 <= t < |runs|
      ensures 0 <= runs[t] < count
    {
      assert runs[t] in multiset(runs);
      assert runs[t] in Indices(count);
    }
  }

  lemma {:induction false} IndicesCountOnce(count: nat, i: int)
    requires 0 <= i < count
    ensures multiset(Indices(count))[i] == 1
    decreases count
  {
    assert Indices(count) == Indices(count - 1) + [count - 1];
    if i < count - 1 {
      IndicesCountOnce(count - 1, i);
    } else {
      assert i !in Indices(count - 1);
    }
  }

  // ---------------------------------------------------------------------
  // GetInfo
  // ---------------------------------------------------------------------

  /** The decimal digits of `n`, as `int.ToString` writes a non-negative value. */
  function NatToString(n: nat): (s: string)
    ensures 1 <= |s| && forall i :: 0 <= i < |s| ==> '0' <= s[i] <= '9'
    decreases n
  {
    if n < 10 then [Digit(n)] else NatToString(n / 10) + [Digit(n % 10)]
  }

  function Digit(d: nat): (c: char)
    requires d < 10
    ensures '0' <= c <= '9' && (c as int) - ('0' as int) == d
  {
    ('0' as int + d) as char
  }

  /** The value of a string of decimal digits. */
  function ParseDigits(s: string): nat
    requires forall i :: 0 <= i < |s| ==> '0' <= s[i] <= '9'
  {
    if s == [] then 0
    else 10 * ParseDigits(s[..|s| - 1]) + ((s[|s| - 1] as int) - ('0' as int))
  }

  /** Reading back the digits gives the number again. */
  lemma {:induction false} DigitsRoundTrip(n: nat)
    ensures ParseDigits(NatToString(n)) == n
    decreases n
  {
    var s := NatToString(n);
    if n < 10 {
      assert s[..0] == [];
    } else {
      DigitsRoundTrip(n / 10);
      assert s[..|s| - 1] == NatToString(n / 10);
    }
  }

  /** How a configuration is named in the report. */
  function DisplayName(c: Configuration): string
  {
    if c.name.None? then "User Data" else c.name.value
  }

  /** The report line of one configuration. */
  function ConfigurationLine(c: Configuration): string
  {
    DisplayName(c) + ". Saving changes? " + (if c.saveChanges then "Yes" else "No") + "\n"
  }

  function Header(name: string, completed: nat): string
  {
    "Study " + name + "\n" + "Number of completed sessions: " + NatToString(completed) + "\n" + "Configurations:\n"
  }

  /** The report lines of the configurations, in order. */
  function ConfigurationLines(cs: seq<Configuration>): string
  {
    if cs == [] then "" else ConfigurationLines(cs[..|cs| - 1]) + ConfigurationLine(cs[|cs| - 1])
  }

  lemma LinesStep(cs: seq<Configuration>, k: nat)
    requires k < |cs|
    ensures ConfigurationLines(cs[..k + 1]) == ConfigurationLines(cs[..k]) + ConfigurationLine(cs[k])
  {
    assert cs[..k + 1][..k] == cs[..k];
  }

  /** The number of line breaks in `s`. */
  function LineBreaks(s: string): nat
  {
    if s == [] then 0 else LineBreaks(s[..|s| - 1]) + (if s[|s| - 1] == '\n' then 1 else 0)
  }

  lemma {:induction false} LineBreaksAppend(a: string, b: string)
    ensures LineBreaks(a + b) == LineBreaks(a) + LineBreaks(b)
    decreases |b|
  {
    if b == [] {
      assert a + b == a;
    } else {
      var ab := a + b;
      LineBreaksAppend(a, b[..|b| - 1]);
      assert ab[..|ab| - 1] == a + b[..|b| - 1];
      assert ab[|ab| - 1] == b[|b| - 1];
    }
  }

  lemma {:induction false} NoLineBreaks(s: string)
    requires forall i :: 0 <= i < |s| ==> s[i] != '\n'
    ensures LineBreaks(s) == 0
    decreases |s|
  {
    if s != [] {
      NoLineBreaks(s[..|s| - 1]);
    }
  }

  /** A name with no line break of its own. */
  predicate SingleLine(s: string)
  {
    forall i :: 0 <= i < |s| ==> s[i] != '\n'
  }

  /**
   * The report has three header lines and then exactly one line per
   * configuration, as long as no name breaks a line itself.
   */
  lemma {:induction false} ReportLineCount(name: string, completed: nat, cs: seq<Configuration>)
    requires SingleLine(name)
    requires forall k :: 0 <= k < |cs| ==> SingleLine(DisplayName(cs[k]))
    ensures LineBreaks(Header(name, completed) + ConfigurationLines(cs)) == 3 + |cs|
  {
    HeaderLineCount(name, completed);
    LinesCount(cs);
    LineBreaksAppend(Header(name, completed), ConfigurationLines(cs));
  }

  lemma HeaderLineCount(name: string, completed: nat)
    requires SingleLine(name)
    ensures LineBreaks(Header(name, completed)) == 3
  {
    var digits := NatToString(completed);
    NoLineBreaks(name);
    NoLineBreaks(digits);
    NoLineBreaks("Study ");
    NoLineBreaks("Number of completed sessions: ");
    NoLineBreaks("Configurations:");
    assert LineBreaks("\n") == 1 by {
      assert "\n"[..0] == "";
    }
    LineBreaksAppend("Study ", name);
    LineBreaksAppend("Study " + name, "\n");
    LineBreaksAppend("Study " + name + "\n", "Number of completed sessions: ");
    LineBreaksAppend("Study " + name + "\n" + "Number of completed sessions: ", digits);
    LineBreaksAppend("Study " + name + "\n" + "Number of completed sessions: " + digits, "\n");
    LineBreaksAppend("Configurations:", "\n");
    assert "Configurations:\n" == "Configurations:" + "\n";
    LineBreaksAppend("Study " + name + "\n" + "Number of completed sessions: " + digits + "\n", "Configurations:\n");
  }

  lemma {:induction false} LinesCount(cs: seq<Configuration>)
    requires forall k :: 0 <= k < |cs| ==> SingleLine(DisplayName(cs[k]))
    ensures LineBreaks(ConfigurationLines(cs)) == |cs|
    decreases |cs|
  {
    if cs != [] {
      var c := cs[|cs| - 1];
      LinesCount(cs[..|cs| - 1]);
      LineBreaksAppend(ConfigurationLines(cs[..|cs| - 1]), ConfigurationLine(c));
      OneLine(c);
    }
  }

  lemma OneLine(c: Configuration)
    requires SingleLine(DisplayName(c))
    ensures LineBreaks(ConfigurationLine(c)) == 1
  {
    var answer := if c.saveChanges then "Yes" else "No";
    var text := DisplayName(c) + ". Saving changes? " + answer;
    assert SingleLine(text);
    NoLineBreaks(text);
    LineBreaksAppend(text, "\n");
    assert "\n"[..0] == "";
  }

  /** The loop of `GetInfo`: appends the configurations' lines one by one. */
  method AppendLines(header: string, cs: seq<Configuration>) returns (info: string)
    ensures info == header + ConfigurationLines(cs)
  {
    info := header;
    for k := 0 to |cs|
      invariant info == header + ConfigurationLines(cs[..k])
    {
      var line := ConfigurationLine(cs[k]);
      LinesStep(cs, k);
      info := info + line;
    }
    assert cs[..|cs|] == cs;
  }

  // ---------------------------------------------------------------------
  // The study
  // ---------------------------------------------------------------------

  class Study {
    /** `name`. */
    var name: string
    /** `number_of_completed_sessions`. */
    var completed: nat
    /** `configurations`. */
    var configurations: seq<Configuration>
    /** The number of entries in `sessions`; the sessions' contents are not part of this model. */
    var sessionCount: nat

    /** `Study(name)`, with the default single configuration (the user's data, saving changes) and single session. */
    constructor (name: string)
      ensures this.name == name && completed == 0 && sessionCount == 1
      ensures configurations == [Configuration(true, None)]
    {
      this.name := name;
      completed := 0;
      configurations := [Configuration(true, None)];
      sessionCount := 1;
    }

    /**
     * `StartSession`. `resultsExist` says whether the
     * session's results folder already exists; `draws` stands for the random
     * generator. Returns the configuration indices in the order they are
     * run: none, and the counter unchanged, when the session's results
     * exist or every session is finished; otherwise every configuration
     * once, in the shuffled order, and the counter one higher.
     */
    method StartSession(resultsExist: bool, draws: seq<int>) returns (runs: seq<int>)
      requires ValidDraws(draws, |configurations|)
      modifies this
      ensures name == old(name) && configurations == old(configurations) && sessionCount == old(sessionCount)
      ensures resultsExist || old(completed) >= sessionCount ==> runs == [] && completed == old(completed)
      ensures !resultsExist && old(completed) < sessionCount ==>
        completed == old(completed) + 1
        && runs == FisherYates(Indices(|configurations|), |configurations|, draws)
        && multiset(runs) == multiset(Indices(|configurations|))
    {
      if resultsExist {
        return [];
      }
      if completed >= sessionCount {
        return [];
      }
      var indices := new int[|configurations|](i => i);
      assert indices[..] == Indices(|configurations|);
      Shuffle(indices, draws);
      runs := indices[..];
      completed := completed + 1;
    }

    /** `GetInfo`: the header, then one line per configuration. */
    method GetInfo() returns (info: string)
      ensures info == Header(name, completed) + ConfigurationLines(configurations)
    {
      info := AppendLines(Header(name, completed), configurations);
    }
  }
}
