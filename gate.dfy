/**
 * The two request handlers that tie the components together: capture and
 * decide, and the operator override. The barrier opens exactly when the
 * decision string is "ALLOW". HTTP transport and JSON encoding are not modelled:
 * a handler returns its response as a value.
 */
module Gate {
  import opened Wrappers
  import opened Analyzer
  import opened EntryDecision
  import opened Barrier

  const CaptureDirectory := "./captured_images"
  const CaptureError := "Failed to capture image"
  const InternalServerError := 500

  datatype CaptureResponse =
    | CaptureFailed(statusCode: int, error: string)
    | Decided(image: string, decision: string, analysis: string)

  datatype OverrideResponse = OverrideResponse(status: string, decision: string)

  /** Python's os.path.join of two POSIX path components. */
  function JoinPath(directory: string, name: string): (r: string)
    ensures |name| > 0 && name[0] == '/' ==> r == name
    ensures !(|name| > 0 && name[0] == '/') ==>
      |directory| + |name| <= |r| <= |directory| + |name| + 1 &&
      r[..|directory|] == directory && r[|r| - |name|..] == name &&
      r[|directory|..|r| - |name|] == (if directory != [] && directory[|directory| - 1] != '/' then "/" else "")
  {
    if |name| > 0 && name[0] == '/' then name
    else if directory == [] || directory[|directory| - 1] == '/' then directory + name
    else directory + "/" + name
  }

  /** The captured file's path as the handler passes it on. */
  lemma CapturePathInDirectory(name: string)
    requires name != [] && name[0] != '/'
    ensures JoinPath(CaptureDirectory, name) == CaptureDirectory + "/" + name
  {
  }

  /**
   * Capture and decide. `captured` is what the camera returned and `reply`,
   * `now` the vision model's reply text and the clock reading of the analysis.
   */
  method CaptureAndAnalyze(system: EntryDecisionSystem, barrier: BarrierControl,
                           captured: Option<string>, reply: string, now: real)
    returns (response: CaptureResponse)
    requires barrier.Valid()
    modifies system, barrier
    ensures barrier.Valid()
    ensures captured == None || captured == Some("") ==>
      response == CaptureFailed(InternalServerError, CaptureError) &&
      system.log == old(system.log) && barrier.State() == old(barrier.State())
    ensures captured.Some? && captured.value != "" ==>
      response == Decided(captured.value, Label(ExtractDecision(reply)), reply) &&
      system.log == old(system.log) + [AutomatedEntry(JoinPath(CaptureDirectory, captured.value), AnalysisOf(reply, now))]
    ensures captured.Some? && captured.value != "" && ExtractDecision(reply) == Allow ==>
      barrier.State() == Step(old(barrier.State()), OpenEvent)
    ensures ExtractDecision(reply) != Allow ==> barrier.State() == old(barrier.State())
  {
    if captured == None || captured == Some("") {
      return CaptureFailed(InternalServerError, CaptureError);
    }
    var fullPath := JoinPath(CaptureDirectory, captured.value);
    var result := system.ProcessVehicle(fullPath, AnalysisOf(reply, now));
    if result.decision == "ALLOW" {
      barrier.OpenBarrier();
    }
    response := Decided(captured.value, result.decision, result.analysis);
  }

  /** The operator override; the barrier opens only for the exact string "ALLOW". */
  method Override(system: EntryDecisionSystem, barrier: BarrierControl,
                  imagePath: string, decision: string, reason: string, operatorId: string, now: real)
    returns (response: OverrideResponse)
    requires barrier.Valid()
    modifies system, barrier
    ensures barrier.Valid()
    ensures response == OverrideResponse("success", decision)
    ensures system.log == old(system.log) + [OverrideEntry(imagePath, decision, reason, operatorId, now)]
    ensures barrier.State() == if decision == "ALLOW" then Step(old(barrier.State()), OpenEvent) else old(barrier.State())
  {
    var applied := system.OverrideDecision(imagePath, decision, reason, operatorId, now);
    if decision == "ALLOW" {
      barrier.OpenBarrier();
    }
    response := OverrideResponse("success", applied);
  }

  /**
   * An image whose analysis allows entry gets exactly one log record with
   * decision "ALLOW", and the barrier is open when the handler returns.
   */
  method CaptureAllowedVehicle(system: EntryDecisionSystem, barrier: BarrierControl,
                               image: string, reply: string, now: real)
    returns (response: CaptureResponse)
    requires barrier.Valid() && image != "" && ExtractDecision(reply) == Allow
    modifies system, barrier
    ensures barrier.Valid() && barrier.status == Open
    ensures |system.log| == |old(system.log)| + 1 && system.log[..|old(system.log)|] == old(system.log)
    ensures system.log[|system.log| - 1].decision == "ALLOW" && !system.log[|system.log| - 1].override
    ensures response.Decided? && response.decision == "ALLOW"
  {
    response := CaptureAndAnalyze(system, barrier, Some(image), reply, now);
  }
}
