/** The scan engine adapter, `scan_file_with_clamav`: how the exit status and
    report of one `clamscan --no-summary <path>` invocation are turned into a
    three-way verdict, and how the signature name is read from the report. */
module ClamAV {
  import opened Common
  import opened PyStr

  /** What running the scanner produced. The subprocess itself, its 300-second
      bound and the exceptions it can raise are the environment's; the model
      receives their outcome. */
  datatype Invocation =
    | Exited(returncode: int, stdout: string, stderr: string)  // the process ran to completion
    | TimedOut                                                  // `subprocess.TimeoutExpired`
    | Crashed(reason: string)                                   // any other exception, as `str(e)`

  /** The tuple `(is_infected, virus_name, scan_output)`: `(False, None, out)`,
      `(True, name, out)` or `(None, None, "ERROR: ...")`. */
  datatype ScanOutcome =
    | Clean(output: string)
    | Infected(virusName: string, output: string)
    | Indeterminate(output: string)
  {
    /** The tuple's first component. */
    function IsInfected(): Option<bool> {
      match this
      case Clean(_) => Some(false)
      case Infected(_, _) => Some(true)
      case Indeterminate(_) => None
    }

    /** The tuple's second component. */
    function VirusName(): Option<string> {
      if Infected? then Some(virusName) else None
    }
  }

  const ErrorPrefix: string := "ERROR: "

  /** The best-effort signature name: `"Unknown"` unless the report mentions
      FOUND and has a colon, in which case it is the text between the first
      colon and the next one, with every FOUND deleted and whitespace stripped. */
  function ParseVirusName(output: string): (name: string)
    ensures !(Contains(output, "FOUND") && ':' in output) ==> name == "Unknown"
    ensures ':' !in name
    ensures name == [] || (!IsSpace(name[0]) && !IsSpace(name[|name| - 1]))
  {
    if Contains(output, "FOUND") then
      var parts := Split(output, ':');
      if |parts| > 1 then
        var found := RemoveAll(parts[1], "FOUND");
        RemoveAllKeepsOut(parts[1], "FOUND", ':');
        StripKeepsOut(found, ':');
        StripTrimmed(found);
        Strip(found)
      else "Unknown"
    else
      "Unknown"
  }

  /** `scan_file_with_clamav`: exit status 0 is clean, 1 is infected whatever the
      report says, and every other status, a timeout or an exception is
      indeterminate with an output that starts with "ERROR: ". */
  function Classify(inv: Invocation): (o: ScanOutcome)
    ensures o.Clean? <==> inv.Exited? && inv.returncode == 0
    ensures o.Infected? <==> inv.Exited? && inv.returncode == 1
    ensures o.Indeterminate? ==> |o.output| >= |ErrorPrefix| && o.output[..|ErrorPrefix|] == ErrorPrefix
    ensures !o.Indeterminate? ==> o.output == Strip(inv.stdout)
    ensures o.Infected? ==> o.virusName == ParseVirusName(o.output)
  {
    match inv
    case Exited(code, stdout, stderr) =>
      var output := Strip(stdout);
      if code == 0 then Clean(output)
      else if code == 1 then Infected(ParseVirusName(output), output)
      else Indeterminate(ErrorPrefix + stderr)
    case TimedOut => Indeterminate(ErrorPrefix + "Scan timeout")
    case Crashed(reason) => Indeterminate(ErrorPrefix + reason)
  }

  /** The exact error texts: the scanner's stderr, the timeout notice, or the
      exception's message, each after "ERROR: ". */
  lemma ErrorOutputs(inv: Invocation)
    requires !(inv.Exited? && inv.returncode in {0, 1})
    ensures Classify(inv).IsInfected() == None && Classify(inv).VirusName() == None
    ensures inv.Exited? ==> Classify(inv).output == "ERROR: " + inv.stderr
    ensures inv.TimedOut? ==> Classify(inv).output == "ERROR: Scan timeout"
    ensures inv.Crashed? ==> Classify(inv).output == "ERROR: " + inv.reason
  {
  }

  /** The report line clamscan prints for a detection. */
  function DetectionReport(path: string, name: string): string {
    path + ": " + name + " FOUND"
  }

  /** The text after the report's first colon, up to the end. */
  lemma ReportSecondField(path: string, name: string)
    requires ':' !in path && ':' !in name
    ensures |Split(DetectionReport(path, name), ':')| > 1
    ensures Split(DetectionReport(path, name), ':')[1] == [' '] + name + [' '] + "FOUND"
  {
    var tail := [' '] + name + [' '] + "FOUND";
    assert DetectionReport(path, name) == path + [':'] + tail;
    SplitSecond(path, ':', tail);
    assert ':' !in tail;
    SplitJoin(tail, ':');
  }

  lemma ReportMentionsFound(path: string, name: string)
    ensures Contains(DetectionReport(path, name), "FOUND")
  {
    var report := DetectionReport(path, name);
    assert report[|report| - 5..] == "FOUND";
    assert OccursAt(report, "FOUND", |report| - 5);
    ContainsAt(report, "FOUND");
  }

  lemma FramedNameRemoval(name: string)
    requires !Contains(name, "FOUND")
    ensures RemoveAll([' '] + name + [' '] + "FOUND", "FOUND") == [' '] + name + [' ']
  {
    var framed := [' '] + name + [' '];
    FramedLacks(name, "FOUND", ' ', ' ');
    assert framed + "FOUND" == framed + "FOUND" + "";
    RemoveBeforeOccurrence(framed, "FOUND", "");
    assert framed + RemoveAll("", "FOUND") == framed;
  }

  lemma FramedNameStrip(name: string)
    requires name == [] || (!IsSpace(name[0]) && !IsSpace(name[|name| - 1]))
    ensures Strip([' '] + name + [' ']) == name
  {
    assert AllSpace([' ']);
    StripPadded([' '], name, [' ']);
  }

  /** Reading a detection report gives back the signature it names, for any
      path and signature free of colons whose signature is free of FOUND and of
      whitespace at its ends. */
  lemma DetectionReportName(path: string, name: string)
    requires ':' !in path && ':' !in name
    requires !Contains(name, "FOUND")
    requires name == [] || (!IsSpace(name[0]) && !IsSpace(name[|name| - 1]))
    ensures ParseVirusName(DetectionReport(path, name)) == name
  {
    ReportSecondField(path, name);
    ReportMentionsFound(path, name);
    FramedNameRemoval(name);
    FramedNameStrip(name);
  }

  /** Exit status 1 with a detection report on stdout yields the infected verdict
      with that signature; the report itself is kept as the output. */
  lemma DetectionClassified(path: string, name: string, stderr: string)
    requires path != [] && !IsSpace(path[0])
    requires ':' !in path && ':' !in name
    requires !Contains(name, "FOUND")
    requires name == [] || (!IsSpace(name[0]) && !IsSpace(name[|name| - 1]))
    ensures Classify(Exited(1, DetectionReport(path, name) + "\n", stderr))
            == Infected(name, DetectionReport(path, name))
  {
    StripReportLine(path, name);
    DetectionReportName(path, name);
  }

  /** The trailing newline of the report line is stripped, nothing else. */
  lemma StripReportLine(path: string, name: string)
    requires path != [] && !IsSpace(path[0])
    ensures Strip(DetectionReport(path, name) + "\n") == DetectionReport(path, name)
  {
    var report := DetectionReport(path, name);
    assert report[0] == path[0];
    assert report[|report| - 1] == 'D';
    assert AllSpace("") && AllSpace("\n");
    StripPadded("", report, "\n");
    assert "" + report + "\n" == report + "\n";
  }

  /** An ASCII letter. */
  predicate IsLetter(c: char) {
    'A' <= c <= 'Z' || 'a' <= c <= 'z'
  }

  lemma LetterNotSpace(c: char)
    requires IsLetter(c)
    ensures !IsSpace(c)
  {
  }

  const EicarSignature: string := "Eicar-Test-Signature"

  /** The EICAR test signature meets the conditions of `DetectionClassified`:
      it has no colon, no FOUND, and starts and ends with a letter. */
  lemma EicarSignatureReadable()
    ensures !Contains(EicarSignature, "FOUND") && ':' !in EicarSignature
    ensures EicarSignature[0] == 'E' && EicarSignature[|EicarSignature| - 1] == 'e'
  {
    var s := EicarSignature;
    assert forall k :: 0 <= k < |s| ==> s[k] != 'F' && s[k] != ':';
    LacksFirstChar(s, "FOUND");
  }

  /** A scan of the EICAR test file, reported by clamscan on a path without a
      colon, is classified infected under the EICAR signature, with the report
      line as its output. */
  lemma EicarClassified(path: string, stderr: string)
    requires path != [] && !IsSpace(path[0]) && ':' !in path
    ensures Classify(Exited(1, DetectionReport(path, EicarSignature) + "\n", stderr))
            == Infected(EicarSignature, DetectionReport(path, EicarSignature))
  {
    EicarSignatureReadable();
    LetterBoundedClassified(path, EicarSignature, stderr);
  }

  /** A signature without colons or FOUND that starts and ends with a letter
      is classified under its own name. */
  lemma LetterBoundedClassified(path: string, sig: string, stderr: string)
    requires path != [] && !IsSpace(path[0]) && ':' !in path
    requires !Contains(sig, "FOUND") && ':' !in sig
    requires |sig| > 0 && IsLetter(sig[0]) && IsLetter(sig[|sig| - 1])
    ensures Classify(Exited(1, DetectionReport(path, sig) + "\n", stderr))
            == Infected(sig, DetectionReport(path, sig))
  {
    LetterNotSpace(sig[0]);
    LetterNotSpace(sig[|sig| - 1]);
    DetectionClassified(path, sig, stderr);
  }
}
