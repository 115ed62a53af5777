/** The polling service that feeds the real-time-data server: it checks its
    credentials, resolves the poll interval from the command line, and then
    repeatedly fetches the latest trade and quote and writes a five-field
    record to a shared file, until it is interrupted.

    The market-data client, the file, the clock and the sleep are outside the
    model: each poll cycle is described by a `Cycle` value that says what the
    provider answered and where, if anywhere, an exception or an interrupt
    arrived. */
module NvdaService {
  import opened Wrappers

  const Symbol := "NVDA"
  const DefaultInterval := 5
  const MinInterval := 1
  /** The default bound on the digits `int()` converts (Python 3.11 and the
      security releases 3.7.14, 3.8.14, 3.9.14, 3.10.7): a longer decimal
      string raises ValueError. */
  const MaxStrDigits := 4300

  // ---------------------------------------------------------------------
  // Command-line interval

  predicate IsDigit(c: char)
  {
    '0' <= c <= '9'
  }

  predicate AllDigits(s: string)
  {
    forall i :: 0 <= i < |s| ==> IsDigit(s[i])
  }

  /** The value of a string of decimal digits, most significant first. */
  function DigitsValue(s: string): nat
    requires AllDigits(s)
    decreases |s|
  {
    if s == [] then 0
    else DigitsValue(s[..|s| - 1]) * 10 + (s[|s| - 1] as int - '0' as int)
  }

  /** The digits of an integer literal: the string without its sign. */
  function Unsigned(s: string): string
  {
    if |s| > 0 && (s[0] == '-' || s[0] == '+') then s[1..] else s
  }

  /** An optional sign and between one and `MaxStrDigits` ASCII digits. */
  predicate IsIntegerLiteral(s: string)
  {
    0 < |Unsigned(s)| <= MaxStrDigits && AllDigits(Unsigned(s))
  }

  /** The integer conversion applied to the argument: an optional sign and
      one or more ASCII digits, at most `MaxStrDigits` of them; anything else
      is a conversion error (`None`). */
  function ParseInt(s: string): (r: Option<int>)
    ensures r.Some? <==> IsIntegerLiteral(s)
    ensures r.Some? ==> (r.value < 0 ==> s[0] == '-') && (s[0] == '-' ==> r.value <= 0)
    ensures r.Some? ==> (if r.value < 0 then -r.value else r.value) == DigitsValue(Unsigned(s))
  {
    if |s| > 0 && (s[0] == '-' || s[0] == '+') then
      var digits := s[1..];
      if 0 < |digits| <= MaxStrDigits && AllDigits(digits) then
        var magnitude: int := DigitsValue(digits);
        Some(if s[0] == '-' then -magnitude else magnitude)
      else None
    else if 0 < |s| <= MaxStrDigits && AllDigits(s) then Some(DigitsValue(s))
    else None
  }

  /** The interval the service runs with, from the process arguments
      (`argv[0]` is the program name, `argv[1]` the optional interval). */
  function ResolveInterval(argv: seq<string>): (interval: int)
    ensures interval >= MinInterval
    ensures |argv| <= 1 ==> interval == DefaultInterval
    ensures |argv| > 1 && ParseInt(argv[1]) == None ==> interval == DefaultInterval
    ensures |argv| > 1 && ParseInt(argv[1]).Some? && ParseInt(argv[1]).value < MinInterval ==> interval == MinInterval
    ensures |argv| > 1 && ParseInt(argv[1]).Some? && ParseInt(argv[1]).value >= MinInterval ==> interval == ParseInt(argv[1]).value
  {
    if |argv| > 1 then
      match ParseInt(argv[1])
      case None => DefaultInterval
      case Some(v) => if v < MinInterval then MinInterval else v
    else DefaultInterval
  }

  /** Decimal rendering of an integer, used to state what the conversion accepts. */
  function NatString(n: nat): (s: string)
    decreases n
  {
    var d := ['0' + (n % 10) as char];
    if n < 10 then d else NatString(n / 10) + d
  }

  function IntString(n: int): string
  {
    if n < 0 then "-" + NatString(-n) else NatString(n)
  }

  /** The number of decimal digits of n, ignoring its sign. */
  function DigitCount(n: int): nat
  {
    |NatString(if n < 0 then -n else n)|
  }

  lemma {:induction false} NatStringDigits(n: nat)
    ensures |NatString(n)| > 0 && AllDigits(NatString(n))
    ensures DigitsValue(NatString(n)) == n
    decreases n
  {
    var d := ['0' + (n % 10) as char];
    if n >= 10 {
      NatStringDigits(n / 10);
      var s := NatString(n / 10) + d;
      assert s[..|s| - 1] == NatString(n / 10);
      assert s == NatString(n);
    }
  }

  /** Every integer of at most `MaxStrDigits` digits, written in decimal,
      converts back to itself; a longer one is rejected. */
  lemma ParseIntString(n: int)
    ensures ParseInt(IntString(n)) == if DigitCount(n) <= MaxStrDigits then Some(n) else None
  {
    var m := if n < 0 then -n else n;
    NatStringDigits(m);
    if n < 0 {
      assert IntString(n)[1..] == NatString(m);
    } else {
      assert NatString(m)[0] != '-' && NatString(m)[0] != '+';
    }
  }

  /** An argument containing a letter is not an integer. */
  lemma LetterIsNotInteger(s: string, k: nat)
    requires k < |s| && ('a' <= s[k] <= 'z' || 'A' <= s[k] <= 'Z')
    ensures ParseInt(s) == None
  {
  }

  /** An integer argument n gives the interval max(n, 1), unless it has more
      than `MaxStrDigits` digits, when the default is used. */
  lemma IntervalOfInteger(program: string, n: int)
    ensures ResolveInterval([program, IntString(n)]) ==
              if DigitCount(n) > MaxStrDigits then DefaultInterval
              else if n < MinInterval then MinInterval
              else n
  {
    ParseIntString(n);
  }

  /** The command lines "prog", "prog 0", "prog -3", "prog 10" and "prog abc". */
  lemma IntervalExamples(program: string)
    ensures ResolveInterval([program]) == 5
    ensures ResolveInterval([program, "0"]) == 1
    ensures ResolveInterval([program, "-3"]) == 1
    ensures ResolveInterval([program, "10"]) == 10
    ensures ResolveInterval([program, "abc"]) == 5
  {
  }

  // ---------------------------------------------------------------------
  // Credentials

  datatype Credentials = Credentials(apiKey: string, secretKey: string)

  const ConfigMessage := "Please set ALPACA_API_KEY and ALPACA_SECRET_KEY environment variables"

  /** The constructor's check of the two environment variables: an unset
      variable (`None`) and an empty one are both rejected. */
  function CheckCredentials(apiKey: Option<string>, secretKey: Option<string>): (r: Result<Credentials, string>)
    ensures r.Success? <==> apiKey.Some? && apiKey.value != "" && secretKey.Some? && secretKey.value != ""
    ensures r.Success? ==> r.value == Credentials(apiKey.value, secretKey.value)
    ensures r.Failure? ==> r.error == ConfigMessage
  {
    match (apiKey, secretKey)
    case (Some(k), Some(s)) =>
      if k == "" || s == "" then Failure(ConfigMessage) else Success(Credentials(k, s))
    case _ => Failure(ConfigMessage)
  }

  // ---------------------------------------------------------------------
  // One fetch

  /** The fields of the provider's latest trade and latest quote that the
      service reads (plus the trade's own timestamp, which it ignores). */
  datatype Trade = Trade(price: real, timestamp: string)
  datatype Quote = Quote(bidPrice: real, askPrice: real, timestamp: string)

  /** A provider call: its response, keyed by symbol, or a raised error
      (transport, authorisation, rate limit, ...). */
  datatype Call<T> = Returned(response: map<string, T>) | Raised

  datatype Json = JNumber(number: real) | JString(text: string)

  /** The record written to the shared file: a flat object keyed by field name. */
  type Record = map<string, Json>

  const RecordKeys: set<string> := {"BidPrice", "AskPrice", "LastPrice", "Timestamp", "UpdateTime"}

  /** The trade request is made first, then the quote request; any raised
      error or a missing symbol key yields `None`. `now` is the local clock's
      ISO-8601 reading. Prices are copied unchecked, so an inverted quote
      (bid above ask) passes through. */
  function FetchNvdaData(trade: Call<Trade>, quote: Call<Quote>, now: string): (r: Option<Record>)
    ensures r.Some? <==> trade.Returned? && Symbol in trade.response && quote.Returned? && Symbol in quote.response
    ensures r.Some? ==> r.value.Keys == RecordKeys
    ensures r.Some? ==>
              r.value["BidPrice"] == JNumber(quote.response[Symbol].bidPrice) &&
              r.value["AskPrice"] == JNumber(quote.response[Symbol].askPrice) &&
              r.value["LastPrice"] == JNumber(trade.response[Symbol].price) &&
              r.value["Timestamp"] == JString(quote.response[Symbol].timestamp) &&
              r.value["UpdateTime"] == JString(now)
  {
    if trade.Raised? || Symbol !in trade.response then None
    else
      var tradeData := trade.response[Symbol];
      if quote.Raised? || Symbol !in quote.response then None
      else
        var quoteData := quote.response[Symbol];
        Some(map[
          "BidPrice" := JNumber(quoteData.bidPrice),
          "AskPrice" := JNumber(quoteData.askPrice),
          "LastPrice" := JNumber(tradeData.price),
          "Timestamp" := JString(quoteData.timestamp),
          "UpdateTime" := JString(now)])
  }

  /** Two fetches over the same provider responses agree except in UpdateTime. */
  lemma FetchRepeatable(trade: Call<Trade>, quote: Call<Quote>, now1: string, now2: string)
    ensures FetchNvdaData(trade, quote, now1).Some? == FetchNvdaData(trade, quote, now2).Some?
    ensures FetchNvdaData(trade, quote, now1).Some? ==>
              FetchNvdaData(trade, quote, now1).value - {"UpdateTime"} ==
              FetchNvdaData(trade, quote, now2).value - {"UpdateTime"}
  {
  }

  // ---------------------------------------------------------------------
  // Poll cycles

  /** How far the fetch got: an interrupt while it ran, or the two provider
      answers and the clock reading. */
  datatype FetchStage = FetchInterrupted | Responded(trade: Call<Trade>, quote: Call<Quote>, now: string)

  /** How the write went. `truncated` says whether opening the file for
      writing had already emptied it when the error or interrupt arrived. */
  datatype SaveStage = SaveWritten | SaveRaised(truncated: bool) | SaveInterrupted(truncated: bool)

  /** What happened after fetch and save: the status line and the sleep went
      through, an interrupt arrived, or another exception arrived and the
      handler ran. */
  datatype TailStage = TailSlept | TailInterrupted | TailRaised(retry: RetryStage)

  /** How the `except Exception` handler went: its message and retry sleep
      completed, an interrupt arrived in them, or they raised an exception
      of their own (an unwritable console, a sleep length the clock cannot
      represent). Nothing inside the loop catches the last two. */
  datatype RetryStage = RetrySlept | RetryInterrupted | RetryRaised

  /** How the `except KeyboardInterrupt` handler went: its message was
      printed and `running` cleared, or the print raised before that (a second
      interrupt, or an ordinary error such as a closed console pipe). The next
      clause does not catch what a handler raises, so the last two leave `run`. */
  datatype ShutdownStage = ShutdownPrinted | ShutdownRaised(interrupt: bool)

  /** One iteration of the loop. Stages the code does not reach are ignored. */
  datatype Cycle = Cycle(fetch: FetchStage, save: SaveStage, tail: TailStage, shutdown: ShutdownStage)

  /** What a reader of the shared file sees. The write truncates and rewrites
      the file in place, so a failed or interrupted write can leave it partial. */
  datatype FileContent = Absent | Complete(record: Record) | Partial

  /** How an iteration ends: loop again, with `running` cleared by the
      KeyboardInterrupt handler, or with an exception leaving the loop
      (`interrupt` says whether it is a KeyboardInterrupt). */
  datatype CycleEnd = Continue | Stop | Escape(interrupt: bool)

  function FetchedIn(c: Cycle): Option<Record>
  {
    match c.fetch
    case FetchInterrupted => None
    case Responded(trade, quote, now) => FetchNvdaData(trade, quote, now)
  }

  function SaveEffect(file: FileContent, data: Record, save: SaveStage): FileContent
  {
    match save
    case SaveWritten => Complete(data)
    case SaveRaised(truncated) => if truncated then Partial else file
    case SaveInterrupted(truncated) => if truncated then Partial else file
  }

  /** The file after one iteration: only a fetched record is ever written. */
  function CycleFile(file: FileContent, c: Cycle): (after: FileContent)
    ensures FetchedIn(c) == None ==> after == file
    ensures FetchedIn(c).Some? && c.save == SaveWritten ==> after == Complete(FetchedIn(c).value)
    ensures after == file || after == Partial || (FetchedIn(c).Some? && after == Complete(FetchedIn(c).value))
  {
    match FetchedIn(c)
    case None => file
    case Some(data) => SaveEffect(file, data, c.save)
  }

  function ShutdownEnd(shutdown: ShutdownStage): CycleEnd
  {
    match shutdown
    case ShutdownPrinted => Stop
    case ShutdownRaised(interrupt) => Escape(interrupt)
  }

  function TailEnd(tail: TailStage, shutdown: ShutdownStage): CycleEnd
  {
    match tail
    case TailSlept => Continue
    case TailInterrupted => ShutdownEnd(shutdown)
    case TailRaised(RetrySlept) => Continue
    case TailRaised(RetryInterrupted) => Escape(true)
    case TailRaised(RetryRaised) => Escape(false)
  }

  /** How one iteration of the loop ends. Only a handler can end it other
      than by looping again: an escape is always an exception raised inside
      one of the two handlers. */
  function EndOf(c: Cycle): (e: CycleEnd)
    ensures e == Stop ==> InterruptHandled(c)
    ensures e == Escape(true) ==>
              c.shutdown == ShutdownRaised(true) || c.tail == TailRaised(RetryInterrupted)
    ensures e == Escape(false) ==>
              c.shutdown == ShutdownRaised(false) || c.tail == TailRaised(RetryRaised)
  {
    if c.fetch.FetchInterrupted? then ShutdownEnd(c.shutdown)
    else if FetchedIn(c).Some? && c.save.SaveInterrupted? then ShutdownEnd(c.shutdown)
    else TailEnd(c.tail, c.shutdown)
  }

  /** A KeyboardInterrupt reaches the handler of the iteration's `try`: during
      the fetch, during a save that is reached, or during the sleep. */
  predicate InterruptHandled(c: Cycle)
  {
    c.fetch.FetchInterrupted? ||
    (FetchedIn(c).Some? && c.save.SaveInterrupted?) ||
    c.tail == TailInterrupted
  }

  /** An iteration clears `running` exactly when an interrupt reaches the
      handler and its shutdown message is printed; when that print raises,
      the iteration leaves the loop instead. */
  lemma InterruptStops(c: Cycle)
    ensures EndOf(c) == Stop <==> InterruptHandled(c) && c.shutdown == ShutdownPrinted
    ensures InterruptHandled(c) && c.shutdown.ShutdownRaised? ==> EndOf(c) == Escape(c.shutdown.interrupt)
  {
  }

  /** No interrupt arrives in the fetch, in a save that is reached, or in the
      sleeps, and the `except Exception` handler, if it runs, completes. */
  predicate Recovers(c: Cycle)
  {
    c.fetch.Responded? &&
    !(FetchedIn(c).Some? && c.save.SaveInterrupted?) &&
    (c.tail == TailSlept || c.tail == TailRaised(RetrySlept))
  }

  /** A failed fetch, a failed save and an unexpected exception whose handler
      completes lead to another iteration, and nothing else does. */
  lemma FailuresContinue(c: Cycle)
    ensures EndOf(c) == Continue <==> Recovers(c)
  {
  }

  datatype RunExit = LoopExited | Escaped(interrupt: bool) | CyclesExhausted
  datatype RunResult = RunResult(running: bool, file: FileContent, exit: RunExit)

  /** The loop over a finite prefix of its iterations, from the given
      `running` flag and file. */
  function RunSpec(running: bool, file: FileContent, cycles: seq<Cycle>): (r: RunResult)
    ensures !running ==> r == RunResult(false, file, LoopExited)
    ensures r.exit == CyclesExhausted ==> forall i :: 0 <= i < |cycles| ==> EndOf(cycles[i]) == Continue
    ensures r.exit.Escaped? ==> exists i :: 0 <= i < |cycles| && EndOf(cycles[i]) == Escape(r.exit.interrupt)
    decreases |cycles|
  {
    if !running then RunResult(false, file, LoopExited)
    else if cycles == [] then RunResult(true, file, CyclesExhausted)
    else
      var next := CycleFile(file, cycles[0]);
      match EndOf(cycles[0])
      case Continue => RunSpec(true, next, cycles[1..])
      case Stop => RunSpec(false, next, cycles[1..])
      case Escape(interrupt) => RunResult(true, next, Escaped(interrupt))
  }

  /** `running` ends false exactly when some iteration is ended by the
      KeyboardInterrupt handler and every earlier one looped again. */
  lemma {:induction false} RunStopsOnlyOnInterrupt(file: FileContent, cycles: seq<Cycle>)
    ensures !RunSpec(true, file, cycles).running <==>
              exists i :: 0 <= i < |cycles| && EndOf(cycles[i]) == Stop &&
                forall j :: 0 <= j < i ==> EndOf(cycles[j]) == Continue
    decreases |cycles|
  {
    if cycles != [] {
      var next := CycleFile(file, cycles[0]);
      match EndOf(cycles[0])
      case Continue =>
        RunStopsOnlyOnInterrupt(next, cycles[1..]);
        if !RunSpec(true, file, cycles).running {
          var i :| 0 <= i < |cycles[1..]| && EndOf(cycles[1..][i]) == Stop &&
                   forall j :: 0 <= j < i ==> EndOf(cycles[1..][j]) == Continue;
          assert EndOf(cycles[i + 1]) == Stop;
          assert forall j :: 0 <= j < i + 1 ==> EndOf(cycles[j]) == Continue by {
            forall j | 0 < j < i + 1 ensures EndOf(cycles[j]) == Continue {
              assert cycles[j] == cycles[1..][j - 1];
            }
          }
        }
        if exists i :: 0 <= i < |cycles| && EndOf(cycles[i]) == Stop &&
                       forall j :: 0 <= j < i ==> EndOf(cycles[j]) == Continue {
          var i :| 0 <= i < |cycles| && EndOf(cycles[i]) == Stop &&
                   forall j :: 0 <= j < i ==> EndOf(cycles[j]) == Continue;
          assert i > 0;
          assert EndOf(cycles[1..][i - 1]) == Stop;
          assert forall j :: 0 <= j < i - 1 ==> EndOf(cycles[1..][j]) == Continue by {
            forall j | 0 <= j < i - 1 ensures EndOf(cycles[1..][j]) == Continue {
              assert cycles[1..][j] == cycles[j + 1];
            }
          }
        }
      case Stop =>
      case Escape(_) =>
        forall i | 0 <= i < |cycles| && EndOf(cycles[i]) == Stop
          ensures exists j :: 0 <= j < i && EndOf(cycles[j]) != Continue
        {
          assert i > 0;
        }
    }
  }

  /** When every iteration recovers, the loop keeps polling: `running` stays
      set through every failed fetch, failed save and handled exception. */
  lemma {:induction false} RunWithoutInterruptKeepsPolling(file: FileContent, cycles: seq<Cycle>)
    requires forall i :: 0 <= i < |cycles| ==> Recovers(cycles[i])
    ensures RunSpec(true, file, cycles).running
    ensures RunSpec(true, file, cycles).exit == CyclesExhausted
    decreases |cycles|
  {
    if cycles != [] {
      FailuresContinue(cycles[0]);
      RunWithoutInterruptKeepsPolling(CycleFile(file, cycles[0]), cycles[1..]);
    }
  }

  /** When every fetch fails, the file is never touched. */
  lemma {:induction false} FailedFetchesKeepFile(running: bool, file: FileContent, cycles: seq<Cycle>)
    requires forall i :: 0 <= i < |cycles| ==> FetchedIn(cycles[i]) == None
    ensures RunSpec(running, file, cycles).file == file
    decreases |cycles|
  {
    if running && cycles != [] {
      FailedFetchesKeepFile(EndOf(cycles[0]) != Stop, file, cycles[1..]);
    }
  }

  /** The file ends as it started, partial, or holding a record fetched in one
      of the iterations. */
  lemma {:induction false} PublishedProvenance(running: bool, file: FileContent, cycles: seq<Cycle>)
    ensures var r := RunSpec(running, file, cycles);
            r.file == file || r.file == Partial ||
            exists i :: 0 <= i < |cycles| && FetchedIn(cycles[i]).Some? && r.file == Complete(FetchedIn(cycles[i]).value)
    decreases |cycles|
  {
    if running && cycles != [] {
      var next := CycleFile(file, cycles[0]);
      var r := RunSpec(running, file, cycles);
      if EndOf(cycles[0]).Escape? {
        assert r.file == next;
      } else {
        PublishedProvenance(EndOf(cycles[0]) == Continue, next, cycles[1..]);
        assert r == RunSpec(EndOf(cycles[0]) == Continue, next, cycles[1..]);
        if exists i :: 0 <= i < |cycles[1..]| && FetchedIn(cycles[1..][i]).Some? && r.file == Complete(FetchedIn(cycles[1..][i]).value) {
          var i :| 0 <= i < |cycles[1..]| && FetchedIn(cycles[1..][i]).Some? && r.file == Complete(FetchedIn(cycles[1..][i]).value);
          assert cycles[1..][i] == cycles[i + 1];
        }
      }
    }
  }

  /** So a complete file always holds a record with exactly the five keys,
      if it did before the loop. */
  lemma PublishedRecordShape(running: bool, file: FileContent, cycles: seq<Cycle>)
    requires file.Complete? ==> file.record.Keys == RecordKeys
    ensures RunSpec(running, file, cycles).file.Complete? ==> RunSpec(running, file, cycles).file.record.Keys == RecordKeys
  {
    PublishedProvenance(running, file, cycles);
  }

  /** An interrupt during the sleep that follows an unexpected exception is
      not handled inside the loop: it leaves `run` with `running` still set. */
  lemma InterruptInRetrySleepEscapes(file: FileContent)
    ensures var c := Cycle(Responded(Raised, Raised, ""), SaveWritten, TailRaised(RetryInterrupted), ShutdownPrinted);
            RunSpec(true, file, [c]) == RunResult(true, file, Escaped(true))
  {
  }

  /** Likewise an exception raised by the handler's own message or retry
      sleep leaves `run`, ending polling without any interrupt. */
  lemma HandlerErrorEscapes(file: FileContent)
    ensures var c := Cycle(Responded(Raised, Raised, ""), SaveWritten, TailRaised(RetryRaised), ShutdownPrinted);
            RunSpec(true, file, [c]) == RunResult(true, file, Escaped(false))
  {
  }

  /** An error raised by the shutdown message itself, after an interrupt in
      the fetch, leaves `run` before `running` is cleared. */
  lemma ShutdownErrorEscapes(file: FileContent, save: SaveStage, tail: TailStage)
    ensures var c := Cycle(FetchInterrupted, save, tail, ShutdownRaised(false));
            RunSpec(true, file, [c]) == RunResult(true, file, Escaped(false))
  {
  }

  /** Leaving the loop by an exception never clears `running`. */
  lemma {:induction false} EscapeKeepsRunning(running: bool, file: FileContent, cycles: seq<Cycle>)
    ensures RunSpec(running, file, cycles).exit.Escaped? ==> RunSpec(running, file, cycles).running
    ensures RunSpec(running, file, cycles).running <==> RunSpec(running, file, cycles).exit != LoopExited
    decreases |cycles|
  {
    if running && cycles != [] && !EndOf(cycles[0]).Escape? {
      EscapeKeepsRunning(EndOf(cycles[0]) == Continue, CycleFile(file, cycles[0]), cycles[1..]);
    }
  }

  // ---------------------------------------------------------------------
  // The service object

  class PriceService {
    const credentials: Credentials
    var running: bool
    /** The shared file the service writes; its content is outside the process. */
    var file: FileContent

    constructor (credentials: Credentials, file: FileContent)
      ensures this.credentials == credentials && this.file == file && running
    {
      this.credentials := credentials;
      this.file := file;
      running := true;
    }

    /** The constructor's credential check, with its ValueError as `Failure`. */
    static method Create(apiKey: Option<string>, secretKey: Option<string>, file: FileContent) returns (r: Result<PriceService, string>)
      ensures r.Failure? <==> CheckCredentials(apiKey, secretKey).Failure?
      ensures r.Failure? ==> r.error == ConfigMessage
      ensures r.Success? ==> fresh(r.value) && r.value.running && r.value.file == file &&
                             r.value.credentials == CheckCredentials(apiKey, secretKey).value
    {
      match CheckCredentials(apiKey, secretKey)
      case Failure(message) =>
        r := Failure(message);
      case Success(credentials) =>
        var service := new PriceService(credentials, file);
        r := Success(service);
    }

    /** Writes a record; returns whether the write completed. An interrupt
        during the write (`SaveInterrupted`) is not caught here; the caller
        handles it. */
    method SaveData(data: Record, outcome: SaveStage) returns (ok: bool)
      modifies this`file
      ensures file == SaveEffect(old(file), data, outcome)
      ensures ok <==> outcome == SaveWritten
    {
      match outcome
      case SaveWritten =>
        file := Complete(data);
        ok := true;
      case SaveRaised(truncated) =>
        if truncated { file := Partial; }
        ok := false;
      case SaveInterrupted(truncated) =>
        if truncated { file := Partial; }
        ok := false;
    }

    /** The polling loop over the given iterations. `updateInterval` is only
        the length of each sleep, which is not modelled. */
    method Run(updateInterval: int, cycles: seq<Cycle>) returns (exit: RunExit)
      modifies this`running, this`file
      ensures RunResult(running, file, exit) == RunSpec(old(running), old(file), cycles)
    {
      var i := 0;
      while running && i < |cycles|
        invariant 0 <= i <= |cycles|
        invariant RunSpec(old(running), old(file), cycles) == RunSpec(running, file, cycles[i..])
        decreases |cycles| - i
      {
        var c := cycles[i];
        assert cycles[i..][1..] == cycles[i + 1..];
        i := i + 1;
        // interrupted: a KeyboardInterrupt has reached the handler
        var interrupted := false;
        match c.fetch {
          case FetchInterrupted =>
            interrupted := true;
          case Responded(trade, quote, now) =>
            var data := FetchNvdaData(trade, quote, now);
            if data.Some? {
              var saved := SaveData(data.value, c.save);
              interrupted := c.save.SaveInterrupted?;
            }
            if !interrupted {
              match c.tail {
                case TailSlept =>
                case TailInterrupted =>
                  interrupted := true;
                case TailRaised(retry) =>
                  match retry {
                    case RetrySlept =>
                    case RetryInterrupted =>
                      return Escaped(true);
                    case RetryRaised =>
                      return Escaped(false);
                  }
              }
            }
        }
        if interrupted {
          match c.shutdown {
            case ShutdownPrinted =>
              running := false;
            case ShutdownRaised(interrupt) =>
              return Escaped(interrupt);
          }
        }
      }
      exit := if running then CyclesExhausted else LoopExited;
    }
  }

  datatype LaunchOutcome =
    | ConfigError(message: string)
    | Ran(interval: int, running: bool, file: FileContent, exit: RunExit)

  /** The entry point: construct the service (which checks the credentials),
      resolve the interval, run the loop. A configuration error ends the
      program before any iteration. */
  method Launch(apiKey: Option<string>, secretKey: Option<string>, argv: seq<string>, file: FileContent, cycles: seq<Cycle>)
    returns (outcome: LaunchOutcome)
    ensures outcome.ConfigError? <==> CheckCredentials(apiKey, secretKey).Failure?
    ensures outcome.ConfigError? ==> outcome.message == ConfigMessage
    ensures outcome.Ran? ==>
              outcome.interval == ResolveInterval(argv) && outcome.interval >= MinInterval &&
              RunResult(outcome.running, outcome.file, outcome.exit) == RunSpec(true, file, cycles)
  {
    var created := PriceService.Create(apiKey, secretKey, file);
    match created
    case Failure(message) =>
      outcome := ConfigError(message);
    case Success(service) =>
      var interval := ResolveInterval(argv);
      var exit := service.Run(interval, cycles);
      outcome := Ran(interval, service.running, service.file, exit);
  }
}
