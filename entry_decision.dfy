/**
 * The entry decision system: runs the analyzer on an image, appends an audit
 * record to an append-only log, and lets an operator record an override.
 * The log file is modelled as the sequence of records it holds, one per line.
 */
module EntryDecision {
  import opened Analyzer

  const DefaultLogFile := "car_wash_entries.log"
  const OverridePrefix := "MANUAL OVERRIDE by "
  const OverrideSeparator := ": "

  /**
   * One line of the log. `override` is false for an automated record, whose
   * line has no override key, and true for an operator's record.
   */
  datatype LogEntry = LogEntry(image: string, timestamp: real, decision: string, analysis: string, override: bool)

  /** The record logged for an automated decision on `imagePath`. */
  function AutomatedEntry(imagePath: string, result: AnalysisResult): LogEntry {
    LogEntry(imagePath, result.timestamp, result.decision, result.analysis, false)
  }

  /** The analysis text of an override record. */
  function OverrideAnalysis(operatorId: string, reason: string): (r: string)
    ensures |r| == |OverridePrefix| + |operatorId| + |OverrideSeparator| + |reason|
    ensures r[..|OverridePrefix|] == OverridePrefix
    ensures r[|r| - |reason|..] == reason
  {
    OverridePrefix + operatorId + OverrideSeparator + reason
  }

  /** For one operator, the reason can be read back from the analysis text. */
  lemma OverrideReasonRecoverable(operatorId: string, reason: string)
    ensures OverrideAnalysis(operatorId, reason)[|OverridePrefix| + |operatorId| + |OverrideSeparator|..] == reason
  {
  }

  /** Two overrides by one operator with different reasons leave different analysis texts. */
  lemma OverrideAnalysisDistinguishesReasons(operatorId: string, reason1: string, reason2: string)
    requires reason1 != reason2
    ensures OverrideAnalysis(operatorId, reason1) != OverrideAnalysis(operatorId, reason2)
  {
  }

  /** The record logged for an operator's override. */
  function OverrideEntry(imagePath: string, newDecision: string, reason: string, operatorId: string, now: real): LogEntry {
    LogEntry(imagePath, now, newDecision, OverrideAnalysis(operatorId, reason), true)
  }

  /** `after` is `before` with records appended; no earlier record is changed or removed. */
  predicate Extends(before: seq<LogEntry>, after: seq<LogEntry>) {
    |before| <= |after| && after[..|before|] == before
  }

  /** Appending is transitive: a log keeps every record through any run of appends. */
  lemma ExtendsTransitive(a: seq<LogEntry>, b: seq<LogEntry>, c: seq<LogEntry>)
    requires Extends(a, b) && Extends(b, c)
    ensures Extends(a, c)
  {
  }

  class EntryDecisionSystem {
    const logFile: string
    /** The records of the log file, oldest first. */
    var log: seq<LogEntry>

    constructor (logFile: string := DefaultLogFile, existing: seq<LogEntry> := [])
      ensures this.logFile == logFile && log == existing
    {
      this.logFile := logFile;
      log := existing;
    }

    /**
     * Logs the analyzer's result for `imagePath` and returns it unchanged.
     * The analyzer call itself is outside the model: its result is `analysis`.
     */
    method ProcessVehicle(imagePath: string, analysis: AnalysisResult) returns (result: AnalysisResult)
      modifies this
      ensures result == analysis
      ensures log == old(log) + [AutomatedEntry(imagePath, analysis)]
      ensures Extends(old(log), log) && |log| == |old(log)| + 1
      ensures log[|log| - 1].image == imagePath && !log[|log| - 1].override
      ensures log[|log| - 1].decision == analysis.decision && log[|log| - 1].analysis == analysis.analysis
    {
      result := analysis;
      LogDecision(imagePath, result);
    }

    /** Appends the record of one automated decision. */
    method LogDecision(imagePath: string, result: AnalysisResult)
      modifies this
      ensures log == old(log) + [AutomatedEntry(imagePath, result)]
    {
      log := log + [AutomatedEntry(imagePath, result)];
    }

    /**
     * Records an operator's decision for `imagePath` and returns it unchanged.
     * `now` is the clock reading; earlier records for the same image stay as they are.
     */
    method OverrideDecision(imagePath: string, newDecision: string, reason: string, operatorId: string, now: real)
      returns (decision: string)
      modifies this
      ensures decision == newDecision
      ensures log == old(log) + [OverrideEntry(imagePath, newDecision, reason, operatorId, now)]
      ensures Extends(old(log), log) && |log| == |old(log)| + 1
      ensures log[|log| - 1].override && log[|log| - 1].decision == newDecision
      ensures log[|log| - 1].analysis == OverridePrefix + operatorId + OverrideSeparator + reason
    {
      log := log + [OverrideEntry(imagePath, newDecision, reason, operatorId, now)];
      decision := newDecision;
    }
  }

  /** Two overrides of one image are both kept, in the order they were made. */
  method OverrideTwice(system: EntryDecisionSystem, imagePath: string, decision1: string, reason1: string,
                       decision2: string, reason2: string, operatorId: string, t1: real, t2: real)
    modifies system
    ensures system.log == old(system.log) + [OverrideEntry(imagePath, decision1, reason1, operatorId, t1),
                                             OverrideEntry(imagePath, decision2, reason2, operatorId, t2)]
    ensures Extends(old(system.log), system.log)
  {
    ghost var before := system.log;
    var _ := system.OverrideDecision(imagePath, decision1, reason1, operatorId, t1);
    ghost var middle := system.log;
    var _ := system.OverrideDecision(imagePath, decision2, reason2, operatorId, t2);
    ExtendsTransitive(before, middle, system.log);
  }
}
