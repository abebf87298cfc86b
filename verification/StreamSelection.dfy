/** Which Graylog streams a custom resource enables (connector.go): the required streams are
    appended, then a quadratic loop keeps the last entry of each name. */
module StreamSelection {
  import opened Wrappers

  datatype StreamSpec = StreamSpec(
    name: string, install: bool, rotationStrategy: string, rotationPeriod: string, maxSize: int, maxNumberOfIndices: int)

  datatype Stream = Stream(title: string, rotationStrategy: string, rotationPeriod: string, maxSize: int, maxNumberOfIndices: int)

  const AUDIT_STREAM := "Audit logs"
  const SYSTEM_STREAM := "System logs"

  function RequiredAudit(): StreamSpec {
    StreamSpec(AUDIT_STREAM, true, "timeBased", "P1M", 0, 5)
  }

  function RequiredSystem(): StreamSpec {
    StreamSpec(SYSTEM_STREAM, true, "", "", 0, 0)
  }

  function DefaultStreams(): seq<StreamSpec> {
    [StreamSpec(AUDIT_STREAM, true, "timeBased", "P1M", 0, 5),
     StreamSpec(SYSTEM_STREAM, true, "sizeBased", "", 1073741824, 20),
     StreamSpec("Kubernetes events", true, "timeBased", "P1M", 0, 5)]
  }

  /** Unicode simple case folding, restricted to what can fold to an ASCII letter: besides
      the upper-case letters that is the long s and the Kelvin sign. */
  function Fold(c: char): char {
    if 'A' <= c <= 'Z' then (c as int + 32) as char
    else if c == '\U{017F}' then 's'
    else if c == '\U{212A}' then 'k'
    else c
  }

  /** strings.EqualFold with an ASCII second argument. */
  predicate EqualFold(s: string, ascii: string) {
    |s| == |ascii| && forall i | 0 <= i < |s| :: Fold(s[i]) == Fold(ascii[i])
  }

  predicate HasFold(streams: seq<StreamSpec>, ascii: string) {
    exists i | 0 <= i < |streams| :: EqualFold(streams[i].name, ascii)
  }

  function WithRequired(streams: seq<StreamSpec>): seq<StreamSpec> {
    streams + (if HasFold(streams, "audit logs") then [] else [RequiredAudit()])
            + (if HasFold(streams, "system logs") then [] else [RequiredSystem()])
  }

  function Enable(s: StreamSpec): Stream {
    var known := s.rotationStrategy != "" && (EqualFold(s.rotationStrategy, "sizeBased") || EqualFold(s.rotationStrategy, "timeBased"));
    Stream(s.name, if known then s.rotationStrategy else "sizeBased", s.rotationPeriod, s.maxSize, s.maxNumberOfIndices)
  }

  /** Entry `i` is the last one of its name, is installed, and has a rule. */
  predicate Chosen(streams: seq<StreamSpec>, known: set<string>, i: nat)
    requires i < |streams|
  {
    streams[i].install && streams[i].name in known && forall j | i < j < |streams| :: streams[j].name != streams[i].name
  }

  /** The chosen indices from `from` on, in ascending order. */
  function ChosenFrom(streams: seq<StreamSpec>, known: set<string>, from: nat): (r: seq<nat>)
    requires from <= |streams|
    ensures forall k | 0 <= k < |r| :: from <= r[k] < |streams| && Chosen(streams, known, r[k])
    ensures forall a, b | 0 <= a < b < |r| :: r[a] < r[b]
    decreases |streams| - from
  {
    if from == |streams| then []
    else if Chosen(streams, known, from) then [from] + ChosenFrom(streams, known, from + 1)
    else ChosenFrom(streams, known, from + 1)
  }

  /** The chosen entries from `from` on. */
  function SelectFrom(streams: seq<StreamSpec>, known: set<string>, from: nat): seq<Stream>
    requires from <= |streams|
  {
    var chosen := ChosenFrom(streams, known, from);
    seq(|chosen|, k requires 0 <= k < |chosen| => Enable(streams[chosen[k]]))
  }

  function Selection(streams: seq<StreamSpec>, known: set<string>): seq<Stream> {
    SelectFrom(streams, known, 0)
  }

  function OneChosen(streams: seq<StreamSpec>, known: set<string>, i: nat): seq<Stream>
    requires i < |streams|
  {
    if Chosen(streams, known, i) then [Enable(streams[i])] else []
  }

  lemma SelectStep(streams: seq<StreamSpec>, known: set<string>, i: nat)
    requires i < |streams|
    ensures SelectFrom(streams, known, i) == OneChosen(streams, known, i) + SelectFrom(streams, known, i + 1)
  {
  }

  class GraylogSpec {
    var streams: seq<StreamSpec>

    constructor (streams: seq<StreamSpec>)
      ensures this.streams == streams
    {
      this.streams := streams;
    }

    method ManageRequiredStreams() returns (r: seq<StreamSpec>)
      modifies this
      ensures streams == r == WithRequired(old(streams))
    {
      var systemLogs, auditLogs := false, false;
      for i := 0 to |streams|
        invariant systemLogs == HasFold(streams[..i], "system logs")
        invariant auditLogs == HasFold(streams[..i], "audit logs")
      {
        var name := streams[i].name;
        assert streams[..i + 1][i] == streams[i];
        assert forall k | 0 <= k < i :: streams[..i + 1][k] == streams[..i][k];
        if EqualFold(name, "system logs") {
          systemLogs := true;
        }
        if EqualFold(name, "audit logs") {
          auditLogs := true;
        }
      }
      assert streams[..|streams|] == streams;
      if !auditLogs {
        streams := streams + [RequiredAudit()];
      }
      if !systemLogs {
        streams := streams + [RequiredSystem()];
      }
      r := streams;
    }

    method GetStreams(known: set<string>) returns (enabled: seq<Stream>)
      modifies this
      ensures streams == if old(streams) == [] then [] else WithRequired(old(streams))
      ensures enabled == Selection(if old(streams) == [] then DefaultStreams() else streams, known)
    {
      var all := DefaultStreams();
      if |streams| != 0 {
        all := ManageRequiredStreams();
      }
      enabled := SelectStreams(all, known);
    }
  }

  /** The inner loop: whether a later entry has the name of entry `i`. */
  method OccursLater(streams: seq<StreamSpec>, i: nat) returns (needSkip: bool)
    requires i < |streams|
    ensures needSkip <==> exists k | i < k < |streams| :: streams[k].name == streams[i].name
  {
    needSkip := false;
    for j := i + 1 to |streams|
      invariant needSkip == exists k | i < k < j :: streams[k].name == streams[i].name
    {
      if streams[i].name == streams[j].name {
        needSkip := true;
      }
    }
  }

  /** The second half of GetStreams: the quadratic loop. */
  method SelectStreams(streams: seq<StreamSpec>, known: set<string>) returns (enabled: seq<Stream>)
    ensures enabled == Selection(streams, known)
  {
    enabled := [];
    for i := 0 to |streams|
      invariant enabled + SelectFrom(streams, known, i) == Selection(streams, known)
    {
      SelectStep(streams, known, i);
      var needSkip := OccursLater(streams, i);
      assert Chosen(streams, known, i) <==> !needSkip && streams[i].install && streams[i].name in known;
      Associative(enabled, OneChosen(streams, known, i), SelectFrom(streams, known, i + 1));
      assert enabled + [] == enabled;
      if !needSkip && streams[i].install && streams[i].name in known {
        enabled := enabled + [Enable(streams[i])];
      }
    }
  }

  // ------------------------------------------------------------------ properties

  lemma {:induction false} ChosenComplete(streams: seq<StreamSpec>, known: set<string>, from: nat, i: nat)
    requires from <= i < |streams| && Chosen(streams, known, i)
    ensures i in ChosenFrom(streams, known, from)
    decreases i - from
  {
    if from < i {
      ChosenComplete(streams, known, from + 1, i);
    }
  }

  lemma SelectionComplete(streams: seq<StreamSpec>, known: set<string>, i: nat)
    requires i < |streams| && Chosen(streams, known, i)
    ensures Enable(streams[i]) in Selection(streams, known)
  {
    ChosenComplete(streams, known, 0, i);
    var chosen := ChosenFrom(streams, known, 0);
    var k :| 0 <= k < |chosen| && chosen[k] == i;
    assert Selection(streams, known)[k] == Enable(streams[i]);
  }

  /** The result holds exactly the last entry of every name that is installed and known, in
      the order of those last entries, so titles are unique. */
  lemma SelectionExact(streams: seq<StreamSpec>, known: set<string>)
    ensures forall i: nat | i < |streams| && Chosen(streams, known, i) :: Enable(streams[i]) in Selection(streams, known)
    ensures forall a | 0 <= a < |Selection(streams, known)| ::
              Chosen(streams, known, ChosenFrom(streams, known, 0)[a]) &&
              Selection(streams, known)[a] == Enable(streams[ChosenFrom(streams, known, 0)[a]])
    ensures forall a, b | 0 <= a < b < |Selection(streams, known)| ::
              && ChosenFrom(streams, known, 0)[a] < ChosenFrom(streams, known, 0)[b]
              && Selection(streams, known)[a].title != Selection(streams, known)[b].title
  {
    forall i: nat | i < |streams| && Chosen(streams, known, i)
      ensures Enable(streams[i]) in Selection(streams, known)
    {
      SelectionComplete(streams, known, i);
    }
  }

  /** What an entry becomes: its strategy if that is one of the two, in any spelling of their
      letters, and otherwise "sizeBased"; the other fields as they are. */
  ghost predicate AsWritten(s: StreamSpec, e: Stream) {
    && e.title == s.name && e.rotationPeriod == s.rotationPeriod && e.maxSize == s.maxSize
    && e.maxNumberOfIndices == s.maxNumberOfIndices
    && e.rotationStrategy ==
         if EqualFold(s.rotationStrategy, "sizeBased") || EqualFold(s.rotationStrategy, "timeBased") then s.rotationStrategy else "sizeBased"
  }

  lemma EnableIff(s: StreamSpec, e: Stream)
    ensures e == Enable(s) <==> AsWritten(s, e)
  {
  }

  /** A stream comes out exactly if it is an installed, known entry as written that no later one of
      the same name replaces. */
  lemma SelectedIff(streams: seq<StreamSpec>, known: set<string>, e: Stream)
    ensures e in Selection(streams, known) <==>
            exists i: nat | i < |streams| ::
              && streams[i].install && streams[i].name in known && AsWritten(streams[i], e)
              && forall j | i < j < |streams| :: streams[j].name != streams[i].name
  {
    SelectionExact(streams, known);
    if e in Selection(streams, known) {
      var a :| 0 <= a < |Selection(streams, known)| && Selection(streams, known)[a] == e;
      var i := ChosenFrom(streams, known, 0)[a];
      EnableIff(streams[i], e);
      assert Chosen(streams, known, i) && AsWritten(streams[i], e);
    }
    if i: nat :| i < |streams| && Chosen(streams, known, i) && AsWritten(streams[i], e) {
      EnableIff(streams[i], e);
      assert Enable(streams[i]) in Selection(streams, known);
    }
  }

  /** Which characters fold to a lower-case ASCII letter: it, its upper-case form, the long s and
      the Kelvin sign. */
  lemma FoldsToLetterIff(c: char, letter: char)
    requires 'a' <= letter <= 'z'
    ensures Fold(c) == Fold(letter) <==>
            || c == letter || c as int + 32 == letter as int
            || (letter == 's' && c == '\U{017F}') || (letter == 'k' && c == '\U{212A}')
  {
  }

  /** What is appended to a list, and to a list that has neither name. */
  lemma RequiredExact(streams: seq<StreamSpec>)
    ensures WithRequired(streams)[..|streams|] == streams
    ensures var audit, system := StreamSpec("Audit logs", true, "timeBased", "P1M", 0, 5), StreamSpec("System logs", true, "", "", 0, 0);
            WithRequired(streams)[|streams|..] ==
            match (HasFold(streams, "audit logs"), HasFold(streams, "system logs"))
            case (true, true) => []
            case (true, false) => [system]
            case (false, true) => [audit]
            case (false, false) => [audit, system]
  {
  }

  lemma RequiredIsPresent(streams: seq<StreamSpec>)
    ensures HasFold(WithRequired(streams), "audit logs") && HasFold(WithRequired(streams), "system logs")
  {
    var r := WithRequired(streams);
    forall i | 0 <= i < |streams|
      ensures r[i] == streams[i]
    {
    }
    assert EqualFold(AUDIT_STREAM, "audit logs") && EqualFold(SYSTEM_STREAM, "system logs");
    if !HasFold(streams, "audit logs") {
      assert EqualFold(r[|streams|].name, "audit logs");
    } else {
      var i :| 0 <= i < |streams| && EqualFold(streams[i].name, "audit logs");
      assert EqualFold(r[i].name, "audit logs");
    }
    if !HasFold(streams, "system logs") {
      assert EqualFold(r[|r| - 1].name, "system logs");
    } else {
      var i :| 0 <= i < |streams| && EqualFold(streams[i].name, "system logs");
      assert EqualFold(r[i].name, "system logs");
    }
  }

  /** Appending the required streams a second time appends nothing. */
  lemma RequiredIsIdempotent(streams: seq<StreamSpec>)
    ensures WithRequired(WithRequired(streams)) == WithRequired(streams)
  {
    RequiredIsPresent(streams);
  }

  /** When the audit stream comes out enabled: if no entry matches its name in any case, or
      if the last entry spelled exactly "Audit logs" is installed. An entry such as
      "audit logs" alone suppresses the default and enables nothing. */
  lemma AuditEnabledIff(streams: seq<StreamSpec>, known: set<string>)
    requires streams != [] && AUDIT_STREAM in known
    ensures (exists e :: e in Selection(WithRequired(streams), known) && e.title == AUDIT_STREAM) <==>
            (!HasFold(streams, "audit logs") ||
             exists i: nat | i < |streams| :: Chosen(streams, known, i) && streams[i].name == AUDIT_STREAM)
  {
    var r, n := WithRequired(streams), |streams|;
    SelectionExact(r, known);
    assert EqualFold(AUDIT_STREAM, "audit logs");
    assert |AUDIT_STREAM| != |SYSTEM_STREAM|;
    forall i | 0 <= i < n
      ensures r[i] == streams[i]
    {
    }
    if !HasFold(streams, "audit logs") {
      assert r[n] == RequiredAudit() && Chosen(r, known, n);
      assert Enable(r[n]) in Selection(r, known);
    } else {
      forall i: nat | i < n && streams[i].name == AUDIT_STREAM
        ensures Chosen(r, known, i) == Chosen(streams, known, i)
      {
      }
      if i: nat :| i < n && Chosen(streams, known, i) && streams[i].name == AUDIT_STREAM {
        assert Chosen(r, known, i);
        assert Enable(r[i]) in Selection(r, known);
      }
    }
  }
}
