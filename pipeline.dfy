/** The processing worker (src/pipeline.py): it builds the capture, recognition
    and translation engines, then drains the command queue in order, putting
    one message on the result queue per region request, until a shutdown. */
module Pipeline {
  import opened Common
  import Capture
  import Ocr
  import Translation

  /** A command dictionary, by its `type`: region requests carry their region
      (in physical pixels); every other type, `reload_config` included, is
      "other". */
  datatype Command = ProcessRegion(region: Region) | Shutdown | OtherCommand(kind: string)

  /** One entry of a result's `texts`. */
  datatype TextEntry = TextEntry(bbox: Ocr.Polygon, original: string, translated: string, confidence: real)

  /** The `timing` dictionary of a result, in seconds. */
  datatype Timing = Timing(capture: real, ocr: real, translation: real, total: real)

  /** A message dictionary put on the result queue, by its `type`. */
  datatype Message =
    | InitComplete(translatorAvailable: bool)
    | InitError(error: string)
    | RegionResult(region: Region, texts: seq<TextEntry>, timing: Timing)
    | ErrorMessage(error: string)

  /** The error text of a region whose capture failed. */
  const CaptureFailed: string := "Failed to capture screen region"

  /** How engine start-up goes: whether the capture handle and the recognition
      engine can be built, the translator's configuration and libraries (the
      translator itself never raises), and the text of the exception when a
      constructor raises. */
  datatype Startup = Startup(captureOk: bool, ocrOk: bool, config: Translation.Config,
                             libs: Translation.Libraries, failure: string)

  /** The outside world while commands are served, for the command at queue
      position `k` (counted from the start of the loop): the screen grab, the
      recognition backend, the translation engines, the measured durations,
      and the text of the exception raised when an engine is missing. */
  datatype Env = Env(grab: (nat, Region) -> Option<Image>, recognize: Image -> Ocr.EngineOutput,
                     engines: Translation.Engines, clock: nat -> Timing, fault: string)

  /** Which engines are set: `screen_capture`, `ocr_engine` and the translator
      (by its state). */
  datatype Workers = Workers(capture: bool, ocr: bool, translator: Option<Translation.TranslatorState>)

  /** The translated text of each span: `translate_batch` of the span texts
      when a translator engine is available, else the texts themselves. */
  function SpanTranslations(t: Translation.TranslatorState, spans: seq<Ocr.Detection>,
                            engines: Translation.Engines): (ts: seq<string>)
    ensures |ts| == |spans|
  {
    if Translation.Available(t) then
      seq(|spans|, i requires 0 <= i < |spans| => Translation.Translate(t, spans[i].text, None, None, engines))
    else Ocr.Texts(spans)
  }

  /** The span entries: each detection with its translation. */
  function Entries(spans: seq<Ocr.Detection>, translated: seq<string>): seq<TextEntry>
    requires |translated| == |spans|
  {
    seq(|spans|, i requires 0 <= i < |spans| =>
          TextEntry(spans[i].bbox, spans[i].text, translated[i], spans[i].confidence))
  }

  /** The one message `process_region` puts for a region request. Each engine
      is touched in turn (capture, recognition, translator), and a missing one
      raises into the generic error branch; a failed grab is reported before
      recognition is reached, and no spans give an empty result before the
      translator is reached. */
  function RegionReply(w: Workers, region: Region, k: nat, env: Env): (m: Message)
    ensures m.RegionResult? || m.ErrorMessage?
    ensures m.RegionResult? ==> m.region == region && w.capture && w.ocr && env.grab(k, region).Some?
    ensures m.RegionResult? ==>
      |m.texts| == |Ocr.Recognized(env.recognize(env.grab(k, region).value))|
    ensures w.capture && env.grab(k, region).None? ==> m == ErrorMessage(CaptureFailed)
  {
    if !w.capture then ErrorMessage(env.fault)
    else match env.grab(k, region)
      case None => ErrorMessage(CaptureFailed)
      case Some(image) =>
        if !w.ocr then ErrorMessage(env.fault)
        else
          var spans := Ocr.Recognized(env.recognize(image));
          if spans == [] then RegionResult(region, [], env.clock(k).(translation := 0.0))
          else match w.translator
            case None => ErrorMessage(env.fault)
            case Some(t) =>
              RegionResult(region, Entries(spans, SpanTranslations(t, spans, env.engines)), env.clock(k))
  }

  /** The messages the command loop puts while draining `cmds`, whose first
      command sits at queue position `k`: one per region request, nothing for a
      command of another type, and nothing from the first shutdown on. */
  function Serve(w: Workers, cmds: seq<Command>, k: nat, env: Env): seq<Message>
    decreases |cmds|
  {
    if cmds == [] then []
    else match cmds[0]
      case Shutdown => []
      case ProcessRegion(region) => [RegionReply(w, region, k, env)] + Serve(w, cmds[1..], k + 1, env)
      case OtherCommand(_) => Serve(w, cmds[1..], k + 1, env)
  }

  /** What one command that is not a shutdown puts: its region's message,
      or nothing. */
  function Handled(w: Workers, c: Command, k: nat, env: Env): seq<Message> {
    match c
    case ProcessRegion(region) => [RegionReply(w, region, k, env)]
    case _ => []
  }

  /** How many commands the loop takes off the queue: up to and including the
      first shutdown, or all of them. */
  function Consumed(cmds: seq<Command>): (n: nat)
    ensures n <= |cmds|
  {
    if cmds == [] then 0
    else if cmds[0].Shutdown? then 1
    else 1 + Consumed(cmds[1..])
  }

  /** `ProcessingPipeline`: the worker's fields, with the two queues as the
      sequences of commands still waiting and of messages put so far. */
  class ProcessingPipeline {
    var running: bool
    var screenCapture: Capture.ScreenCapture?
    /** Whether `ocr_engine` is set. */
    var ocrReady: bool
    var translator: Translation.Translator?
    /** The command queue: commands not yet taken, oldest first. */
    var commands: seq<Command>
    /** The result queue: every message put, oldest first. */
    var results: seq<Message>

    function CurrentWorkers(): Workers
      reads this, translator
    {
      Workers(screenCapture != null, ocrReady, if translator == null then None else Some(translator.State()))
    }

    constructor (queue: seq<Command>)
      ensures running && screenCapture == null && !ocrReady && translator == null
      ensures commands == queue && results == []
    {
      running := true;
      screenCapture := null;
      ocrReady := false;
      translator := null;
      commands := queue;
      results := [];
    }

    /** `initialize_engines`: builds the capture handle, the recognition engine
        and the translator in that order; the first constructor that raises
        leaves the later fields as they were, puts one `init_error` and stops
        the worker; otherwise one `init_complete` reports whether the
        translator is available. */
    method InitializeEngines(startup: Startup)
      modifies this
      ensures commands == old(commands)
      ensures startup.captureOk ==> screenCapture != null && fresh(screenCapture) && screenCapture.handleOpen
      ensures !startup.captureOk ==> screenCapture == old(screenCapture)
      ensures startup.captureOk && startup.ocrOk ==>
        && ocrReady && translator != null && fresh(translator)
        && translator.State() == Translation.InitialState(startup.config, startup.libs)
        && results == old(results) + [InitComplete(Translation.Available(translator.State()))]
        && running == old(running)
      ensures !(startup.captureOk && startup.ocrOk) ==>
        && ocrReady == old(ocrReady) && translator == old(translator)
        && results == old(results) + [InitError(startup.failure)]
        && !running
    {
      if !startup.captureOk {
        results := results + [InitError(startup.failure)];
        running := false;
        return;
      }
      screenCapture := new Capture.ScreenCapture();
      if !startup.ocrOk {
        results := results + [InitError(startup.failure)];
        running := false;
        return;
      }
      ocrReady := true;
      translator := new Translation.Translator(startup.config, startup.libs);
      var available := translator.IsAvailable();
      results := results + [InitComplete(available)];
    }

    /** `process_region`: puts exactly one message for the region, the one
        `RegionReply` describes, and changes nothing else. */
    method ProcessRegion(region: Region, k: nat, env: Env)
      modifies this
      ensures results == old(results) + [RegionReply(old(CurrentWorkers()), region, k, env)]
      ensures running == old(running) && commands == old(commands)
      ensures screenCapture == old(screenCapture) && ocrReady == old(ocrReady) && translator == old(translator)
    {
      if screenCapture == null {
        results := results + [ErrorMessage(env.fault)];
        return;
      }
      var image := screenCapture.CaptureRegion(region, (r: Region) => env.grab(k, r));
      if image.None? {
        results := results + [ErrorMessage(CaptureFailed)];
        return;
      }
      if !ocrReady {
        results := results + [ErrorMessage(env.fault)];
        return;
      }
      var spans := Ocr.DetectAndRecognize(env.recognize(image.value));
      if spans == [] {
        results := results + [RegionResult(region, [], env.clock(k).(translation := 0.0))];
        return;
      }
      if translator == null {
        results := results + [ErrorMessage(env.fault)];
        return;
      }
      var translated: seq<string>;
      if translator.IsAvailable() {
        translated := translator.TranslateBatch(Ocr.Texts(spans), env.engines);
      } else {
        translated := Ocr.Texts(spans);
      }
      assert translated == SpanTranslations(translator.State(), spans, env.engines);
      var entries: seq<TextEntry> := [];
      var i := 0;
      while i < |spans|
        invariant 0 <= i <= |spans|
        invariant |entries| == i
        invariant forall j :: 0 <= j < i ==>
          entries[j] == TextEntry(spans[j].bbox, spans[j].text, translated[j], spans[j].confidence)
      {
        entries := entries + [TextEntry(spans[i].bbox, spans[i].text, translated[i], spans[i].confidence)];
        i := i + 1;
      }
      assert entries == Entries(spans, translated);
      results := results + [RegionResult(region, entries, env.clock(k))];
    }

    /** `run`: initialises the engines, then, while running, takes the oldest
        command: a region request is processed, a shutdown stops the worker,
        anything else is dropped. When the loop ends the capture handle, if it
        was built, is closed. With no shutdown in the queue the worker is still
        running once the queue is empty, and it then keeps polling. */
    method Run(startup: Startup, env: Env)
      requires running && screenCapture == null && !ocrReady && translator == null
      modifies this
      ensures !(startup.captureOk && startup.ocrOk) ==>
        results == old(results) + [InitError(startup.failure)] && commands == old(commands) && !running
      ensures startup.captureOk && startup.ocrOk ==>
        var w := Workers(true, true, Some(Translation.InitialState(startup.config, startup.libs)));
        && results == old(results) + [InitComplete(Translation.Available(w.translator.value))]
                                    + Serve(w, old(commands), 0, env)
        && commands == old(commands)[Consumed(old(commands))..]
        && (running <==> Shutdown !in old(commands))
      ensures startup.captureOk <==> screenCapture != null
      ensures screenCapture != null ==> (screenCapture.handleOpen <==> running)
    {
      InitializeEngines(startup);
      if running {
        ServeCommands(env);
      }
      if running {
        // The queue is empty but the worker still polls it: clean-up is not reached.
        return;
      }
      if screenCapture != null {
        screenCapture.Close();
      }
    }

    /** One pass of the loop body: takes the oldest command off the queue; a
        region request puts its one message, a shutdown stops the worker, and
        anything else is dropped. */
    method HandleNextCommand(k: nat, env: Env)
      requires commands != []
      modifies this
      ensures screenCapture == old(screenCapture) && ocrReady == old(ocrReady) && translator == old(translator)
      ensures commands == old(commands)[1..]
      ensures results == old(results) + Handled(old(CurrentWorkers()), old(commands)[0], k, env)
      ensures running == (old(running) && !old(commands)[0].Shutdown?)
    {
      var command := commands[0];
      commands := commands[1..];
      match command {
        case ProcessRegion(region) =>
          ProcessRegion(region, k, env);
        case Shutdown =>
          running := false;
        case OtherCommand(_) =>
      }
    }

    /** The `while self.running` loop of `run`: takes the oldest command while
        the worker runs; a region request is processed, a shutdown stops the
        worker, anything else is dropped. The engines are left as they are. */
    method ServeCommands(env: Env)
      requires running
      modifies this
      ensures screenCapture == old(screenCapture) && ocrReady == old(ocrReady) && translator == old(translator)
      ensures results == old(results) + Serve(old(CurrentWorkers()), old(commands), 0, env)
      ensures commands == old(commands)[Consumed(old(commands))..]
      ensures running <==> Shutdown !in old(commands)
    {
      ghost var queue, before, w := commands, results, CurrentWorkers();
      var k: nat := 0;
      while running && commands != []
        decreases |commands|
        invariant screenCapture == old(screenCapture) && ocrReady == old(ocrReady) && translator == old(translator)
        invariant CurrentWorkers() == w
        invariant k <= |queue| && commands == queue[k..]
        invariant running ==>
          && Shutdown !in queue[..k] && Consumed(queue) == k + Consumed(commands)
          && results + Serve(w, commands, k, env) == before + Serve(w, queue, 0, env)
        invariant !running ==>
          && Shutdown in queue && Consumed(queue) == k
          && results == before + Serve(w, queue, 0, env)
      {
        assert queue[k] == commands[0] && queue[..k + 1] == queue[..k] + [commands[0]];
        ghost var r0, c0 := results, commands;
        HandleNextCommand(k, env);
        ServeAdvance(w, c0, k, env, r0, results, before + Serve(w, queue, 0, env));
        k := k + 1;
      }
      if running {
        assert queue[..k] == queue;
      }
    }
  }

  /** One step of the command loop: if the messages put so far followed by
      what serving `cmds` puts make up `total`, then after the oldest command
      is handled the same holds for the rest of the queue, or, after a
      shutdown, the messages put are already `total`. */
  lemma ServeAdvance(w: Workers, cmds: seq<Command>, k: nat, env: Env,
                     r0: seq<Message>, r1: seq<Message>, total: seq<Message>)
    requires cmds != [] && r0 + Serve(w, cmds, k, env) == total
    requires r1 == r0 + Handled(w, cmds[0], k, env)
    ensures cmds[0].Shutdown? ==> r1 == total && Consumed(cmds) == 1
    ensures !cmds[0].Shutdown? ==>
      r1 + Serve(w, cmds[1..], k + 1, env) == total && Consumed(cmds) == 1 + Consumed(cmds[1..])
  {
    if cmds[0].Shutdown? {
      assert r0 + [] == r0;
    } else {
      assert Serve(w, cmds, k, env) == Handled(w, cmds[0], k, env) + Serve(w, cmds[1..], k + 1, env);
      assert r0 + (Handled(w, cmds[0], k, env) + Serve(w, cmds[1..], k + 1, env))
          == r0 + Handled(w, cmds[0], k, env) + Serve(w, cmds[1..], k + 1, env);
    }
  }

  /** Text of the i-th span, its translation and its carried-through fields in
      a region result. */
  lemma RegionEntries(w: Workers, region: Region, k: nat, env: Env)
    requires w.capture && w.ocr && w.translator.Some? && env.grab(k, region).Some?
    requires Ocr.Recognized(env.recognize(env.grab(k, region).value)) != []
    ensures var spans := Ocr.Recognized(env.recognize(env.grab(k, region).value));
      var t := w.translator.value;
      var m := RegionReply(w, region, k, env);
      && m == RegionResult(region, m.texts, env.clock(k))
      && |m.texts| == |spans|
      && forall i :: 0 <= i < |spans| ==>
           && m.texts[i].bbox == spans[i].bbox
           && m.texts[i].original == spans[i].text
           && m.texts[i].confidence == spans[i].confidence
           && m.texts[i].translated == Translation.Translate(t, spans[i].text, None, None, env.engines)
           && (!Translation.Available(t) ==> m.texts[i].translated == m.texts[i].original)
  {
    var spans := Ocr.Recognized(env.recognize(env.grab(k, region).value));
    var t := w.translator.value;
    forall i | 0 <= i < |spans|
      ensures SpanTranslations(t, spans, env.engines)[i] == Translation.Translate(t, spans[i].text, None, None, env.engines)
    {
    }
  }

  /** A failed grab gives the capture error, and recognition is never
      consulted: any other backend gives the same message. */
  lemma CaptureFailureSkipsRecognition(w: Workers, region: Region, k: nat, env: Env,
                                       recognize: Image -> Ocr.EngineOutput)
    requires w.capture && env.grab(k, region).None?
    ensures RegionReply(w, region, k, env) == ErrorMessage(CaptureFailed)
    ensures RegionReply(w, region, k, env.(recognize := recognize)) == RegionReply(w, region, k, env)
  {
  }

  /** No spans give a result with no texts and no translation time, whatever
      the translator. */
  lemma EmptyRecognitionResult(w: Workers, region: Region, k: nat, env: Env,
                               other: Option<Translation.TranslatorState>)
    requires w.capture && w.ocr && env.grab(k, region).Some?
    requires Ocr.Recognized(env.recognize(env.grab(k, region).value)) == []
    ensures RegionReply(w, region, k, env) == RegionResult(region, [], env.clock(k).(translation := 0.0))
    ensures RegionReply(w.(translator := other), region, k, env) == RegionReply(w, region, k, env)
  {
  }

  /** Position of the first shutdown, or the queue length. */
  function StopIndex(cmds: seq<Command>): (n: nat)
    ensures n <= |cmds|
    ensures forall j :: 0 <= j < n ==> !cmds[j].Shutdown?
    ensures n < |cmds| ==> cmds[n].Shutdown?
  {
    if cmds == [] || cmds[0].Shutdown? then 0 else 1 + StopIndex(cmds[1..])
  }

  /** Number of region requests in a list of commands. */
  function RegionCount(cmds: seq<Command>): nat {
    if cmds == [] then 0 else (if cmds[0].ProcessRegion? then 1 else 0) + RegionCount(cmds[1..])
  }

  /** Every region request before the first shutdown gets exactly one message,
      every message is a result or an error, and nothing else is put. */
  lemma {:induction false} OneMessagePerRegion(w: Workers, cmds: seq<Command>, k: nat, env: Env)
    ensures |Serve(w, cmds, k, env)| == RegionCount(cmds[..StopIndex(cmds)])
    ensures forall m :: m in Serve(w, cmds, k, env) ==> m.RegionResult? || m.ErrorMessage?
    decreases |cmds|
  {
    if cmds != [] && !cmds[0].Shutdown? {
      OneMessagePerRegion(w, cmds[1..], k + 1, env);
      var n := StopIndex(cmds);
      assert cmds[..n] == [cmds[0]] + cmds[1..][..n - 1];
      assert ([cmds[0]] + cmds[1..][..n - 1])[1..] == cmds[1..][..n - 1];
    }
  }

  /** Commands after the first shutdown are never taken off the queue and do
      not change what is put; the worker takes exactly the commands up to the
      shutdown. */
  lemma {:induction false} ShutdownEndsService(w: Workers, before: seq<Command>, after: seq<Command>,
                                               k: nat, env: Env)
    requires Shutdown !in before
    ensures Serve(w, before + [Shutdown] + after, k, env) == Serve(w, before, k, env)
    ensures Consumed(before + [Shutdown] + after) == |before| + 1
    decreases |before|
  {
    var cmds := before + [Shutdown] + after;
    if before == [] {
      assert cmds[0] == Shutdown;
    } else {
      assert cmds[0] == before[0] && cmds[1..] == before[1..] + [Shutdown] + after;
      assert before[0] in before;
      ShutdownEndsService(w, before[1..], after, k + 1, env);
    }
  }

  /** A command of any other type, `reload_config` included, is taken off the
      queue with no message. */
  lemma OtherCommandIgnored(w: Workers, kind: string, cmds: seq<Command>, k: nat, env: Env)
    ensures Serve(w, [OtherCommand(kind)] + cmds, k, env) == Serve(w, cmds, k + 1, env)
    ensures Consumed([OtherCommand(kind)] + cmds) == 1 + Consumed(cmds)
  {
    assert ([OtherCommand(kind)] + cmds)[1..] == cmds;
  }
}
