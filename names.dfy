/**
 * The name-processing loop of the program's entry point (main.go): each line of
 * the names file is tokenized into a first and last name, placeholder and
 * malformed lines are skipped, the rest are looked up through the Apollo API,
 * filtered, and turned into `PersonData` records in input order.
 *
 * `LineStep` and `RunLines` specify what one line and a whole list of lines
 * produce; `CollectPersonData` is the loop itself, with the body for one line in
 * `ProcessLine`, proved to compute `RunLines`.
 */
module Names {
  import opened Wrappers
  import opened GoStrings
  import opened Types

  /** A tokenized line: every field but the last, and the last field. */
  datatype Name = Name(first: string, last: string)

  /** Why the loop stopped early: `os.Exit(1)` on HTTP 429, or a Go index-out-of-range panic. */
  datatype Halt = RateLimitExit | IndexOutOfRange(email: string)

  /** What one line contributes after its (optional) lookup. */
  datatype Outcome = Skipped | Emitted(record: PersonData) | Halted(halt: Halt)

  /** One line's effect: the lookup it made, if any, and its outcome. */
  datatype Step = Step(lookup: Option<Name>, outcome: Outcome)

  /** The records collected so far, the lookups made so far, and whether the loop stopped. */
  datatype Run = Run(records: seq<PersonData>, lookups: seq<Name>, halt: Option<Halt>)

  /**
   * Splits a line into whitespace fields; fewer than two is no name. The last
   * name is the last field, the first name the other fields joined by single spaces.
   */
  function ParseName(line: string): (r: Option<Name>)
    ensures r.None? <==> |Fields(line)| < 2
    ensures r.Some? ==> Fields(r.value.first) + [r.value.last] == Fields(line)
    ensures r.Some? ==> IsField(r.value.last)
    ensures r.Some? ==> |r.value.first| > 0 && SingleSpaced(r.value.first)
  {
    var parts := Fields(line);
    if |parts| < 2 then None
    else
      var init := parts[..|parts| - 1];
      FieldsJoin(init);
      JoinFieldsSingleSpaced(init);
      assert init + [parts[|parts| - 1]] == parts;
      Some(Name(Join(init, ' '), parts[|parts| - 1]))
  }

  /** The placeholder "LinkedIn Member", compared after lower-casing both parts. */
  predicate IsPlaceholder(n: Name)
    ensures IsPlaceholder(n) ==> |n.first| == 8 && |n.last| == 6
  {
    ToLower(n.first) == "linkedin" && ToLower(n.last) == "member"
  }

  /**
   * The domain of an email: empty for an empty email, otherwise element [1] of
   * `strings.Split(email, "@")`, which panics when there is no '@'.
   */
  function Domain(email: string): (r: Result<string, Halt>)
    ensures email == "" ==> r == Ok("")
    ensures email != "" ==> (r.Err? <==> '@' !in email)
    ensures r.Err? ==> r.error == IndexOutOfRange(email)
    ensures r.Ok? ==> '@' !in r.value
    ensures r.Ok? && email != "" ==>
              var i := IndexOf(email, '@');
              var j := i + 1 + |r.value|;
              i < |email| && j <= |email| && r.value == email[i + 1..j] && (j == |email| || email[j] == '@')
  {
    if email == "" then Ok("")
    else
      var parts := Split(email, '@');
      SplitFirst(email, '@');
      if |parts| < 2 then Err(IndexOutOfRange(email))
      else
        var i := IndexOf(email, '@');
        var rest := email[i + 1..];
        SplitAt(email, '@', i);
        SplitFirst(rest, '@');
        var k := IndexOf(rest, '@');
        assert parts[1] == rest[..k] == email[i + 1..i + 1 + k];
        Ok(parts[1])
  }

  /**
   * A record the loop may emit: a well-formed, non-placeholder name, the configured
   * organization, the email and title the API returned for that name, an email
   * present when the configuration demands one, and the domain of that email.
   */
  predicate Enriched(cfg: Config, requester: Requester, p: PersonData)
  {
    && |p.firstName| > 0 && SingleSpaced(p.firstName) && IsField(p.lastName)
    && !IsPlaceholder(Name(p.firstName, p.lastName))
    && p.organization == cfg.organization
    && requester(cfg, p.firstName, p.lastName) == Found(p.email, p.title)
    && (cfg.email ==> p.email != "")
    && Domain(p.email) == Ok(p.domain)
  }

  /**
   * What the loop promises for one line, whose step is `s`: a lookup exactly for
   * a parsed, non-placeholder line; on a rate limit the process exits; a failed
   * lookup and a required-but-empty email skip the line ("continue"); an email
   * without '@' stops the run with a panic; otherwise an enriched record is emitted.
   */
  predicate StepMeetsLoop(cfg: Config, requester: Requester, line: string, s: Step)
  {
    && (s.lookup.Some? <==> ParseName(line).Some? && !IsPlaceholder(ParseName(line).value))
    && (s.lookup.Some? ==> s.lookup == ParseName(line))
    && (s.lookup.None? ==> s.outcome == Skipped)
    && (s.outcome.Halted? ==> s.lookup.Some?)
    && (s.outcome.Emitted? ==> Enriched(cfg, requester, s.outcome.record))
    && (s.outcome.Emitted? ==> Name(s.outcome.record.firstName, s.outcome.record.lastName) == s.lookup.value)
    && (s.outcome == Halted(RateLimitExit) <==>
          s.lookup.Some? && requester(cfg, s.lookup.value.first, s.lookup.value.last) == RateLimited)
    && (s.lookup.Some? && requester(cfg, s.lookup.value.first, s.lookup.value.last).Failed? ==>
          s.outcome == Skipped)
    && (s.lookup.Some? && requester(cfg, s.lookup.value.first, s.lookup.value.last).Found? ==>
          var resp := requester(cfg, s.lookup.value.first, s.lookup.value.last);
          && (s.outcome.Emitted? <==> !(cfg.email && resp.email == "") && Domain(resp.email).Ok?)
          && (cfg.email && resp.email == "" ==> s.outcome == Skipped)
          && (!(cfg.email && resp.email == "") && Domain(resp.email).Err? ==>
                s.outcome == Halted(IndexOutOfRange(resp.email))))
  }

  /** What one line of the names file does in the loop (main.go:240-277). */
  function LineStep(cfg: Config, requester: Requester, line: string): Step
  {
    match ParseName(line)
    case None => Step(None, Skipped)
    case Some(n) =>
      if IsPlaceholder(n) then Step(None, Skipped)
      else
        var outcome :=
          match requester(cfg, n.first, n.last)
          case RateLimited => Halted(RateLimitExit)
          case Failed(_) => Skipped
          case Found(email, title) =>
            if cfg.email && email == "" then Skipped
            else
              match Domain(email)
              case Err(h) => Halted(h)
              case Ok(d) => Emitted(PersonData(n.first, n.last, cfg.organization, email, d, title));
        Step(Some(n), outcome)
  }

  /** Every line's step keeps the loop's promises. */
  lemma LineStepMeetsLoop(cfg: Config, requester: Requester, line: string)
    ensures StepMeetsLoop(cfg, requester, line, LineStep(cfg, requester, line))
  {
  }

  /** The run after one more line's step. */
  function Then(r: Run, s: Step): Run
  {
    var lookups := r.lookups + (if s.lookup.Some? then [s.lookup.value] else []);
    match s.outcome
    case Skipped => Run(r.records, lookups, r.halt)
    case Emitted(p) => Run(r.records + [p], lookups, r.halt)
    case Halted(h) => Run(r.records, lookups, Some(h))
  }

  const Start := Run([], [], None)

  /** The loop over all lines, stopping at the first halt. */
  function RunLines(cfg: Config, requester: Requester, names: seq<string>): (r: Run)
    ensures |r.records| <= |r.lookups| <= |names|
    decreases |names|
  {
    if names == [] then Start
    else
      var prev := RunLines(cfg, requester, names[..|names| - 1]);
      if prev.halt.Some? then prev else Then(prev, LineStep(cfg, requester, names[|names| - 1]))
  }

  /** The run of `a` followed by the run of `b`, unless `a` already stopped. */
  function Combine(x: Run, y: Run): Run
  {
    if x.halt.Some? then x else Run(x.records + y.records, x.lookups + y.lookups, y.halt)
  }

  /**
   * The loop of main.go:239-279. The requester stands for `ApolloRequester`;
   * `halt` reports how the process would have stopped inside the loop.
   */
  method CollectPersonData(cfg: Config, requester: Requester, names: seq<string>)
    returns (personData: seq<PersonData>, halt: Option<Halt>)
    ensures personData == RunLines(cfg, requester, names).records
    ensures halt == RunLines(cfg, requester, names).halt
  {
    personData := [];
    halt := None;
    for i := 0 to |names|
      invariant RunLines(cfg, requester, names[..i]).records == personData
      invariant RunLines(cfg, requester, names[..i]).halt == None
    {
      RunPrefixStep(cfg, requester, names, i);
      var outcome := ProcessLine(cfg, requester, names[i]);
      match outcome
      case Skipped =>
      case Halted(h) =>
        halt := Some(h);
        HaltPersists(cfg, requester, names, i + 1);
        return;
      case Emitted(p) =>
        personData := personData + [p];
    }
    assert names[..|names|] == names;
  }

  /**
   * The body of the loop for one line (main.go:240-277): each `continue` of the
   * loop is a `Skipped` outcome here, and each way the process stops a `Halted` one.
   */
  method ProcessLine(cfg: Config, requester: Requester, line: string) returns (outcome: Outcome)
    ensures outcome == LineStep(cfg, requester, line).outcome
  {
    var nameParts := Fields(line);
    if |nameParts| < 2 {
      return Skipped;
    }
    var firstName := Join(nameParts[..|nameParts| - 1], ' ');
    var lastName := nameParts[|nameParts| - 1];

    if ToLower(firstName) == "linkedin" && ToLower(lastName) == "member" {
      return Skipped;
    }

    var response := requester(cfg, firstName, lastName);
    if response.RateLimited? {
      return Halted(RateLimitExit);
    }
    if response.Failed? {
      return Skipped;
    }

    if cfg.email && response.email == "" {
      return Skipped;
    }

    var domain := "";
    if response.email != "" {
      var domainParts := Split(response.email, '@');
      if |domainParts| < 2 {
        return Halted(IndexOutOfRange(response.email));
      }
      domain := domainParts[1];
    }

    return Emitted(PersonData(firstName, lastName, cfg.organization, response.email, domain, response.title));
  }

  // ---------------------------------------------------------------------
  // Properties of the loop

  /** Every record collected is an enriched record for the configuration. */
  lemma {:induction false} RunRecordsEnriched(cfg: Config, requester: Requester, names: seq<string>)
    ensures forall k :: 0 <= k < |RunLines(cfg, requester, names).records| ==>
              Enriched(cfg, requester, RunLines(cfg, requester, names).records[k])
    decreases |names|
  {
    if names != [] {
      RunRecordsEnriched(cfg, requester, names[..|names| - 1]);
      LineStepMeetsLoop(cfg, requester, names[|names| - 1]);
    }
  }

  /**
   * Lines are processed in order and independently: the run over `a + b` is the
   * run over `a` followed by the run over `b`, unless `a` stopped the loop.
   */
  lemma {:induction false} RunConcat(cfg: Config, requester: Requester, a: seq<string>, b: seq<string>)
    ensures RunLines(cfg, requester, a + b) == Combine(RunLines(cfg, requester, a), RunLines(cfg, requester, b))
    decreases |b|
  {
    var x := RunLines(cfg, requester, a);
    if b == [] {
      assert a + b == a;
      assert x.halt.None? ==> x.records + [] == x.records && x.lookups + [] == x.lookups;
    } else {
      var b', line := b[..|b| - 1], b[|b| - 1];
      assert (a + b)[..|a + b| - 1] == a + b';
      assert (a + b)[|a + b| - 1] == line;
      RunConcat(cfg, requester, a, b');
      var y' := RunLines(cfg, requester, b');
      if x.halt.None? && y'.halt.None? {
        var s := LineStep(cfg, requester, line);
        var extra := if s.lookup.Some? then [s.lookup.value] else [];
        assert (x.lookups + y'.lookups) + extra == x.lookups + (y'.lookups + extra);
        match s.outcome
        case Skipped =>
        case Halted(_) =>
        case Emitted(p) =>
          assert (x.records + y'.records) + [p] == x.records + (y'.records + [p]);
      }
    }
  }

  /** The run over one more line of the input. */
  lemma RunPrefixStep(cfg: Config, requester: Requester, names: seq<string>, i: nat)
    requires i < |names|
    ensures RunLines(cfg, requester, names[..i + 1]) ==
              var prev := RunLines(cfg, requester, names[..i]);
              if prev.halt.Some? then prev else Then(prev, LineStep(cfg, requester, names[i]))
  {
    assert names[..i + 1][..i] == names[..i];
  }

  /** A run over one line is that line's step. */
  lemma RunSingle(cfg: Config, requester: Requester, line: string)
    ensures RunLines(cfg, requester, [line]) == Then(Start, LineStep(cfg, requester, line))
  {
    assert [line][..0] == [];
  }

  /** Once a prefix has stopped the loop, the remaining lines change nothing. */
  lemma HaltPersists(cfg: Config, requester: Requester, names: seq<string>, i: nat)
    requires i <= |names|
    requires RunLines(cfg, requester, names[..i]).halt.Some?
    ensures RunLines(cfg, requester, names) == RunLines(cfg, requester, names[..i])
  {
    TakeDrop(names, i);
    RunConcat(cfg, requester, names[..i], names[i..]);
  }

  /** A sequence is its prefix followed by the rest. */
  lemma TakeDrop<T>(s: seq<T>, i: nat)
    requires i <= |s|
    ensures s[..i] + s[i..] == s
  {
  }

  /**
   * A line with fewer than two fields, or the placeholder, is skipped without a
   * lookup: removing it from the input changes neither records nor lookups.
   */
  lemma SkippedLineInert(cfg: Config, requester: Requester, a: seq<string>, line: string, b: seq<string>)
    requires ParseName(line).None? || IsPlaceholder(ParseName(line).value)
    ensures RunLines(cfg, requester, a + [line] + b) == RunLines(cfg, requester, a + b)
  {
    RunConcat(cfg, requester, a + [line], b);
    RunConcat(cfg, requester, a, [line]);
    RunConcat(cfg, requester, a, b);
    RunSingle(cfg, requester, line);
    var x := RunLines(cfg, requester, a);
    assert x.halt.None? ==> RunLines(cfg, requester, a + [line]) == Run(x.records + [], x.lookups + [], None);
    assert x.records + [] == x.records && x.lookups + [] == x.lookups;
  }

  // ---------------------------------------------------------------------
  // Names, placeholders and domains

  /** `s` spells `t` (a lower-case word) with any mix of ASCII letter case. */
  predicate AnyCaseOf(s: string, t: string)
  {
    |s| == |t| &&
    forall i :: 0 <= i < |s| ==> s[i] == t[i] || ('a' <= t[i] <= 'z' && s[i] as int == t[i] as int - 32)
  }

  /** Predicate for strings of ASCII characters only. */
  predicate IsAscii(s: string)
  {
    forall i :: 0 <= i < |s| ==> s[i] < 128 as char
  }

  /** Lower-casing an ASCII string yields `t` exactly when it spells `t` in some letter case. */
  lemma LowerIffAnyCase(s: string, t: string)
    requires IsAscii(s)
    requires forall i :: 0 <= i < |t| ==> 'a' <= t[i] <= 'z'
    ensures ToLower(s) == t <==> AnyCaseOf(s, t)
  {
    if AnyCaseOf(s, t) {
      forall i | 0 <= i < |s| ensures ToLower(s)[i] == t[i] {
        if s[i] != t[i] {
          assert 'A' <= s[i] <= 'Z';
        }
      }
    }
  }

  /** "LinkedIn Member" in any ASCII letter case, and only that, is the placeholder. */
  lemma PlaceholderAnyCase(n: Name)
    requires IsAscii(n.first) && IsAscii(n.last)
    ensures IsPlaceholder(n) <==> AnyCaseOf(n.first, "linkedin") && AnyCaseOf(n.last, "member")
  {
    LowerIffAnyCase(n.first, "linkedin");
    LowerIffAnyCase(n.last, "member");
  }

  /** The domain of `local@host` is `host`. */
  lemma DomainOfAddress(local: string, host: string)
    requires '@' !in local && '@' !in host
    ensures Domain(local + "@" + host) == Ok(host)
  {
    var email := local + "@" + host;
    SplitAround(local, '@', host);
    assert email == local + ['@'] + host;
    SplitNoSep(local, '@');
    SplitNoSep(host, '@');
    assert email[|local|] == '@';
  }

  /**
   * The end-to-end case of a two-word name, a placeholder and a one-word line
   * ("Jane Doe", "LinkedIn Member", "Solo" with email not required): only the
   * first is looked up and only its record is collected.
   */
  lemma ThreeLineScenario(cfg: Config, requester: Requester, person: Name, placeholder: Name, solo: string,
                          local: string, host: string, title: string)
    requires IsField(person.first) && IsField(person.last) && !IsPlaceholder(person)
    requires IsField(placeholder.first) && IsField(placeholder.last) && IsPlaceholder(placeholder)
    requires IsField(solo)
    requires !cfg.email && '@' !in local && '@' !in host
    requires requester(cfg, person.first, person.last) == Found(local + "@" + host, title)
    ensures RunLines(cfg, requester, [person.first + [' '] + person.last, placeholder.first + [' '] + placeholder.last, solo]) ==
              Run([PersonData(person.first, person.last, cfg.organization, local + "@" + host, host, title)], [person], None)
  {
    var l1, l2 := person.first + [' '] + person.last, placeholder.first + [' '] + placeholder.last;
    TwoWordName(person.first, person.last);
    TwoWordName(placeholder.first, placeholder.last);
    FieldsOfField(solo);
    SkippedLineInert(cfg, requester, [l1], l2, [solo]);
    assert [l1] + [l2] + [solo] == [l1, l2, solo];
    SkippedLineInert(cfg, requester, [l1], solo, []);
    assert [l1] + [solo] + [] == [l1] + [solo];
    assert [l1] + [] == [l1];
    DomainOfAddress(local, host);
    LineStepEmits(cfg, requester, l1, person, local + "@" + host, title, host);
    RunSingle(cfg, requester, l1);
  }

  /** "LinkedIn Member" is the placeholder. */
  lemma LinkedInMemberIsPlaceholder(n: Name)
    requires n == Name("LinkedIn", "Member")
    ensures IsPlaceholder(n)
  {
    assert LowersTo(n.first, "linkedin") && LowersTo(n.last, "member");
    ToLowerOf(n.first, "linkedin");
    ToLowerOf(n.last, "member");
  }

  /** Two fields separated by one space parse as first and last name. */
  lemma TwoWordName(first: string, last: string)
    requires IsField(first) && IsField(last)
    ensures ParseName(first + [' '] + last) == Some(Name(first, last))
  {
    FieldsAfterField(first, ' ', last);
    FieldsOfField(last);
    assert Join([first], ' ') == first;
  }

  /** A parsed, non-placeholder line whose lookup succeeds and passes the filters emits its record. */
  lemma LineStepEmits(cfg: Config, requester: Requester, line: string, n: Name, email: string, title: string, domain: string)
    requires ParseName(line) == Some(n) && !IsPlaceholder(n)
    requires requester(cfg, n.first, n.last) == Found(email, title)
    requires !(cfg.email && email == "") && Domain(email) == Ok(domain)
    ensures LineStep(cfg, requester, line) ==
              Step(Some(n), Emitted(PersonData(n.first, n.last, cfg.organization, email, domain, title)))
  {
  }
}
