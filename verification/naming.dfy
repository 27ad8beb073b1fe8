/** Report naming: the report for `x.txt` is `x result.txt`, written next
    to it. */
module Naming {
  import opened Strings
  import Discovery

  const ReportTail := " result.txt"

  function ResultName(name: string): (out: string)
    ensures HasSuffix(out, Discovery.ReportSuffix)
    ensures HasSuffix(out, Discovery.TextExtension)
    ensures !Discovery.IsInputName(out)
  {
    var out := TrimSuffix(name, Discovery.TextExtension) + ReportTail;
    assert out[|out| - 10..] == Discovery.ReportSuffix;
    assert out[|out| - 4..] == Discovery.TextExtension;
    out
  }

  /** At most one `.txt` is removed: taking ` result.txt` off the report
      name and putting back the extension the input had gives the input. */
  lemma ResultNameStem(name: string)
    ensures HasSuffix(name, ".txt") ==>
      ResultName(name)[..|ResultName(name)| - |ReportTail|] + ".txt" == name
    ensures !HasSuffix(name, ".txt") ==> ResultName(name) == name + ReportTail
  {
    var out := ResultName(name);
    assert out[..|out| - |ReportTail|] == TrimSuffix(name, ".txt");
  }

  /** Two different input files never share a report name. */
  lemma ResultNameInjectiveOnInputs(a: string, b: string)
    requires Discovery.IsInputName(a) && Discovery.IsInputName(b)
    requires ResultName(a) == ResultName(b)
    ensures a == b
  {
    ResultNameStem(a);
    ResultNameStem(b);
  }

  /** Re-scanning a listing after reports were added to it selects the same
      inputs as before. */
  lemma ReportsNeverReselected(entries: seq<string>, inputs: seq<string>)
    ensures Discovery.SelectInputs(entries + OutputNames(inputs)) == Discovery.SelectInputs(entries)
  {
    Discovery.SelectAppend(entries, OutputNames(inputs));
    Discovery.SelectNothing(OutputNames(inputs));
  }

  function OutputNames(inputs: seq<string>): (outs: seq<string>)
    ensures |outs| == |inputs|
    ensures forall i :: 0 <= i < |inputs| ==> outs[i] == ResultName(inputs[i])
  {
    if |inputs| == 0 then [] else [ResultName(inputs[0])] + OutputNames(inputs[1..])
  }
}
