/**
 * The interactive loop (`TikTokDownloader.run_interactive_mode`): read a line,
 * dispatch `exit`, `help`, empty input or a URL, count the successful downloads.
 * The operator's input is a sequence of events.  The loop itself runs the modelled
 * pipeline, each run getting its environment from `outcome`, indexed by how many runs
 * came before it; its specification sees only the outcome of each run,
 * `outcome(k, url)` for run number `k`.
 */
module InteractiveSession {

  import opened Text
  import opened Pipeline

  /**
   * One iteration's input: a line typed at the prompt; an interrupt; or an
   * unexpected fault raised before the counter was touched, with the operator's
   * answer to the "continue?" question.
   */
  datatype Event = Line(raw: string) | Interrupt | Fault(answer: string)

  /** What a typed line means once stripped. */
  datatype Command = Exit | Help | Blank | Download(url: string)

  /** The checks in the loop's order: `exit`, then `help` (both any case), then empty. */
  function Classify(raw: string): (c: Command)
    ensures c == Exit <==> Lower(Strip(raw)) == "exit"
    ensures c == Help <==> Lower(Strip(raw)) == "help"
    ensures c == Blank <==> Strip(raw) == []
    ensures c.Download? <==> Strip(raw) != [] && Lower(Strip(raw)) != "exit" && Lower(Strip(raw)) != "help"
    ensures c.Download? ==> c.url == Strip(raw)
  {
    var input := Strip(raw);
    if Lower(input) == "exit" then Exit
    else if Lower(input) == "help" then Help
    else if input == [] then Blank
    else Download(input)
  }

  /** The answer to the fault prompt keeps the loop going only when it is `y` or `yes`. */
  predicate Continues(answer: string)
  {
    var choice := Lower(Strip(answer));
    choice == "y" || choice == "yes"
  }

  /** The events after which the loop ends. */
  predicate Stops(e: Event)
  {
    match e
    case Line(raw) => Classify(raw) == Exit
    case Interrupt => true
    case Fault(answer) => !Continues(answer)
  }

  /** The loop state: the success counter, the URLs run so far, and whether it goes on. */
  datatype Session = Session(count: nat, invoked: seq<string>, running: bool)

  const Start: Session := Session(0, [], true)

  /** The outcome oracle given by the modelled pipeline. */
  function PipelineOutcome(envs: nat -> Environment): (nat, string) -> bool
  {
    (k: nat, url: string) => ProcessVideoDownload(url, envs(k)).success
  }

  /** One iteration of the loop. */
  function Step(s: Session, e: Event, outcome: (nat, string) -> bool): Session
  {
    match e
    case Line(raw) =>
      (match Classify(raw)
       case Exit => s.(running := false)
       case Help => s
       case Blank => s
       case Download(url) =>
         var ok := outcome(|s.invoked|, url);
         Session(if ok then s.count + 1 else s.count, s.invoked + [url], s.running))
    case Interrupt => s.(running := false)
    case Fault(answer) => s.(running := Continues(answer))
  }

  /** The loop over a whole input: iterate until an event stops it or the input ends. */
  function Run(s: Session, events: seq<Event>, outcome: (nat, string) -> bool): Session
    decreases |events|
  {
    if events == [] || !s.running then s else Run(Step(s, events[0], outcome), events[1..], outcome)
  }

  /** The position of the first stopping event, or the length of the input when there is none. */
  function FirstStop(events: seq<Event>): (k: nat)
    ensures k <= |events|
    ensures forall i :: 0 <= i < k ==> !Stops(events[i])
    ensures k < |events| ==> Stops(events[k])
    decreases |events|
  {
    if events == [] then 0
    else if Stops(events[0]) then 0
    else
      var k := FirstStop(events[1..]);
      assert forall i :: 1 <= i < k + 1 ==> events[i] == events[1..][i - 1];
      k + 1
  }

  /** The URLs the typed lines carry, in order; `exit`, `help`, empty lines and the other events carry none. */
  function Urls(events: seq<Event>): seq<string>
    decreases |events|
  {
    if events == [] then []
    else
      (match events[0]
       case Line(raw) => (match Classify(raw) case Download(url) => [url] case _ => [])
       case _ => []) + Urls(events[1..])
  }

  /** How many of the pipeline runs for `urls` succeed, the first one being run number `from`. */
  function Successes(urls: seq<string>, from: nat, outcome: (nat, string) -> bool): (n: nat)
    ensures n <= |urls|
    decreases |urls|
  {
    if urls == [] then 0
    else (if outcome(from, urls[0]) then 1 else 0) + Successes(urls[1..], from + 1, outcome)
  }

  /** One more run adds one to the count exactly when it succeeds. */
  lemma {:induction false} SuccessesAppend(urls: seq<string>, url: string, from: nat, outcome: (nat, string) -> bool)
    ensures Successes(urls + [url], from, outcome)
      == Successes(urls, from, outcome) + (if outcome(from + |urls|, url) then 1 else 0)
    decreases |urls|
  {
    if urls != [] {
      assert (urls + [url])[1..] == urls[1..] + [url];
      SuccessesAppend(urls[1..], url, from + 1, outcome);
    } else {
      assert [] + [url] == [url];
    }
  }

  lemma {:induction false} UrlsAppend(events: seq<Event>, e: Event)
    ensures Urls(events + [e]) == Urls(events) + Urls([e])
    decreases |events|
  {
    if events != [] {
      assert (events + [e])[1..] == events[1..] + [e];
      UrlsAppend(events[1..], e);
    } else {
      assert [] + [e] == [e];
    }
  }

  /** The URLs of the lines before the first stopping event, collected the way `Run` meets them. */
  function UrlsUntilStop(events: seq<Event>): seq<string>
    decreases |events|
  {
    if events == [] || Stops(events[0]) then [] else Urls([events[0]]) + UrlsUntilStop(events[1..])
  }

  lemma {:induction false} UrlsUntilStopIsPrefix(events: seq<Event>)
    ensures UrlsUntilStop(events) == Urls(events[..FirstStop(events)])
    decreases |events|
  {
    if events == [] || Stops(events[0]) {
      assert events[..0] == [];
    } else {
      var rest := events[1..];
      UrlsUntilStopIsPrefix(rest);
      var k := FirstStop(rest);
      assert events[..k + 1] == [events[0]] + rest[..k];
      UrlsCons(events[0], rest[..k]);
    }
  }

  lemma {:induction false} RunInvoked(s: Session, events: seq<Event>, outcome: (nat, string) -> bool)
    requires s.running
    ensures Run(s, events, outcome).invoked == s.invoked + UrlsUntilStop(events)
    ensures Run(s, events, outcome).running <==> FirstStop(events) == |events|
    decreases |events|
  {
    if events == [] {
      assert s.invoked + [] == s.invoked;
    } else if Stops(events[0]) {
      StopEffect(s, events[0], outcome);
      assert s.invoked + [] == s.invoked;
    } else {
      var t := Step(s, events[0], outcome);
      StepEffect(s, events[0], outcome);
      RunInvoked(t, events[1..], outcome);
      assert (s.invoked + Urls([events[0]])) + UrlsUntilStop(events[1..])
        == s.invoked + (Urls([events[0]]) + UrlsUntilStop(events[1..]));
    }
  }

  lemma {:induction false} RunCount(s: Session, events: seq<Event>, outcome: (nat, string) -> bool)
    requires s.running
    ensures Run(s, events, outcome).count == s.count + Successes(UrlsUntilStop(events), |s.invoked|, outcome)
    decreases |events|
  {
    if events != [] && !Stops(events[0]) {
      var t := Step(s, events[0], outcome);
      StepEffect(s, events[0], outcome);
      RunCount(t, events[1..], outcome);
      SuccessesSplit(Urls([events[0]]), UrlsUntilStop(events[1..]), |s.invoked|, outcome);
    } else if events != [] {
      StopEffect(s, events[0], outcome);
    }
  }

  /**
   * What the loop does, started in a running state: it consumes the events up to and
   * including the first stopping one, runs the pipeline once for each URL line among
   * them in order, counts exactly the successful runs, and is still running only if
   * no event stopped it.
   */
  lemma RunSpec(s: Session, events: seq<Event>, outcome: (nat, string) -> bool)
    requires s.running
    ensures var k := FirstStop(events);
      var urls := Urls(events[..k]);
      Run(s, events, outcome) == Session(s.count + Successes(urls, |s.invoked|, outcome), s.invoked + urls, k == |events|)
  {
    UrlsUntilStopIsPrefix(events);
    RunInvoked(s, events, outcome);
    RunCount(s, events, outcome);
  }

  /** A stopping event ends the loop and changes nothing else. */
  lemma StopEffect(s: Session, e: Event, outcome: (nat, string) -> bool)
    requires Stops(e)
    ensures Step(s, e, outcome) == s.(running := false)
  {
  }

  /**
   * Any other event runs the pipeline once for a URL line and not at all otherwise,
   * adding one to the count exactly when that run succeeds.
   */
  lemma StepEffect(s: Session, e: Event, outcome: (nat, string) -> bool)
    requires s.running && !Stops(e)
    ensures Step(s, e, outcome) == Session(s.count + Successes(Urls([e]), |s.invoked|, outcome), s.invoked + Urls([e]), true)
  {
  }

  lemma UrlsCons(e: Event, rest: seq<Event>)
    ensures Urls([e] + rest) == Urls([e]) + Urls(rest)
  {
    assert ([e] + rest)[1..] == rest;
    assert [e][1..] == [];
  }

  lemma {:induction false} SuccessesSplit(a: seq<string>, b: seq<string>, from: nat, outcome: (nat, string) -> bool)
    ensures Successes(a + b, from, outcome) == Successes(a, from, outcome) + Successes(b, from + |a|, outcome)
    decreases |a|
  {
    if a == [] {
      assert a + b == b;
    } else {
      assert (a + b)[1..] == a[1..] + b;
      SuccessesSplit(a[1..], b, from + 1, outcome);
    }
  }

  /** The counter never goes down, and it never exceeds the number of pipeline runs. */
  lemma CountMonotone(s: Session, events: seq<Event>, outcome: (nat, string) -> bool)
    requires s.running
    ensures s.count <= Run(s, events, outcome).count
    ensures Run(s, events, outcome).count - s.count <= |Run(s, events, outcome).invoked| - |s.invoked|
  {
    RunSpec(s, events, outcome);
  }

  /**
   * `run_interactive_mode`: the `while True` loop, dispatching each stripped line
   * (`Classify` keeps the source's order of checks) and returning on `exit`, on an
   * interrupt and on a declined fault prompt, where the source breaks out of the loop
   * at the end of the function.
   * It computes `Run` from the start state, and so (by `RunSpec`) the pipeline runs
   * once per URL line before the first stopping event, and `count` is the number of
   * those runs that succeeded.
   */
  method RunInteractiveMode(events: seq<Event>, envs: nat -> Environment) returns (count: nat, invoked: seq<string>, stopped: bool)
    ensures Run(Start, events, PipelineOutcome(envs)) == Session(count, invoked, !stopped)
    ensures invoked == Urls(events[..FirstStop(events)])
    ensures count == Successes(invoked, 0, PipelineOutcome(envs))
    ensures stopped <==> FirstStop(events) < |events|
  {
    var outcome := PipelineOutcome(envs);
    count, invoked, stopped := 0, [], false;
    var i := 0;
    while i < |events|
      invariant 0 <= i <= |events|
      invariant Run(Session(count, invoked, true), events[i..], outcome) == Run(Start, events, outcome)
    {
      var event := events[i];
      RunUnfold(Session(count, invoked, true), events, i, outcome);
      match event {
        case Line(raw) =>
          match Classify(raw) {
            case Exit =>
              stopped := true;
              RunFromStart(events, outcome);
              return;
            case Help =>
            case Blank =>
            case Download(input) =>
              var success := outcome(|invoked|, input);
              if success {
                count := count + 1;
              }
              invoked := invoked + [input];
          }
        case Interrupt =>
          stopped := true;
          RunFromStart(events, outcome);
          return;
        case Fault(answer) =>
          if !Continues(answer) {
            stopped := true;
            RunFromStart(events, outcome);
            return;
          }
      }
      i := i + 1;
    }
    RunFromStart(events, outcome);
  }

  /** `RunSpec` for the session the loop starts with. */
  lemma RunFromStart(events: seq<Event>, outcome: (nat, string) -> bool)
    ensures var urls := Urls(events[..FirstStop(events)]);
      Run(Start, events, outcome) == Session(Successes(urls, 0, outcome), urls, FirstStop(events) == |events|)
  {
    RunSpec(Start, events, outcome);
    assert [] + Urls(events[..FirstStop(events)]) == Urls(events[..FirstStop(events)]);
  }

  /** One turn of the loop from position `i`. */
  lemma RunUnfold(s: Session, events: seq<Event>, i: nat, outcome: (nat, string) -> bool)
    requires s.running && i < |events|
    ensures Run(s, events[i..], outcome) == Run(Step(s, events[i], outcome), events[i + 1..], outcome)
  {
    assert events[i..][1..] == events[i + 1..];
  }

  /** `help` then `exit`: nothing is run, the count stays 0, and the loop ends. */
  lemma HelpThenExit(outcome: (nat, string) -> bool)
    ensures Run(Start, [Line("help"), Line("exit")], outcome) == Session(0, [], false)
  {
    var es := [Line("help"), Line("exit")];
    assert Lower("help") == "help" && Lower("exit") == "exit";
    TrimAlreadyStripped("help");
    TrimAlreadyStripped("exit");
    assert es[1..] == [Line("exit")];
  }

  /** `exit` is recognised in any case and with surrounding whitespace; `y`/`yes` answers likewise. */
  lemma CommandsIgnoreCaseAndSpace()
    ensures Classify(" Exit\n") == Exit
    ensures Continues("YES ") && !Continues("no")
  {
    var raw := " Exit\n";
    assert TrimLeft(raw) == raw[1..];
    assert TrimRight(raw[1..]) == "Exit";
    assert Lower("Exit") == "exit";
    TrimAlreadyStripped("YES");
    assert TrimRight("YES ") == "YES";
    assert Lower("YES") == "yes";
    TrimAlreadyStripped("no");
    assert Lower("no") == "no";
  }

  lemma TrimAlreadyStripped(s: string)
    requires |s| > 0 && !IsSpace(s[0]) && !IsSpace(s[|s| - 1])
    ensures Strip(s) == s
  {
  }
}
