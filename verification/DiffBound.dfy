/** A diff cut at a line boundary to stay under a size limit. */
module DiffBound {
  const MARKER: string := "[diff truncated at 4 MiB by opnsense2otel before redaction]"

  /** The lines with a newline between each two. */
  function Joined(lines: seq<string>): string {
    if lines == [] then ""
    else if |lines| == 1 then lines[0]
    else Joined(lines[..|lines| - 1]) + "\n" + lines[|lines| - 1]
  }

  lemma {:induction false} PrefixesGrow(lines: seq<string>, j: nat, k: nat)
    requires j <= k <= |lines|
    ensures |Joined(lines[..j])| <= |Joined(lines[..k])|
    decreases k - j
  {
    if j < k {
      PrefixesGrow(lines, j, k - 1);
      JoinedStep(lines, k - 1);
    }
  }

  lemma JoinedStep(lines: seq<string>, k: nat)
    requires k < |lines|
    ensures Joined(lines[..k + 1]) == Joined(lines[..k]) + (if k > 0 then "\n" else "") + lines[k]
  {
    assert lines[..k + 1][..k] == lines[..k];
  }

  predicate Fits(lines: seq<string>, k: nat, budget: int)
    requires k <= |lines|
  {
    k == 0 || |Joined(lines[..k])| <= budget
  }

  /** The longest prefix of whole lines within the budget. */
  ghost predicate LongestFit(lines: seq<string>, k: nat, budget: int) {
    k <= |lines| && Fits(lines, k, budget) && forall m :: k < m <= |lines| ==> !Fits(lines, m, budget)
  }

  function Budget(max: int): int { max - |MARKER| - 1 }

  /** The marker as the last line. */
  function Marked(kept: string): string {
    (if kept == "" then "" else kept + "\n") + MARKER
  }

  /** Nothing is dropped exactly when all lines fit in what is left beside the marker, and
      the text is then the plain join; otherwise it is the longest run of whole leading
      lines that fits, then the marker. The text stays within the limit exactly when the
      marker alone would, or there are no lines. */
  method BoundLines(lines: seq<string>, max: int) returns (text: string, truncated: bool)
    ensures truncated <==> lines != [] && |Joined(lines)| > Budget(max)
    ensures !truncated ==> text == Joined(lines)
    ensures truncated ==> exists k: nat :: k < |lines| && LongestFit(lines, k, Budget(max)) && text == Marked(Joined(lines[..k]))
    ensures |text| <= max <==> |MARKER| <= max || (lines == [] && 0 <= max)
  {
    var budget := max - |MARKER| - 1;
    text, truncated := "", false;
    var total := 0;
    var i := 0;
    while i < |lines|
      invariant 0 <= i <= |lines|
      invariant text == Joined(lines[..i]) && total == |text|
      invariant Fits(lines, i, budget)
    {
      JoinedStep(lines, i);
      var separator := if i > 0 then 1 else 0;
      if total + separator + |lines[i]| > budget {
        Stops(lines, i, budget);
        truncated := true;
        break;
      }
      if i > 0 {
        text := text + "\n";
        total := total + 1;
      }
      text := text + lines[i];
      total := total + |lines[i]|;
      i := i + 1;
    }
    if truncated {
      if |text| > 0 {
        text := text + "\n";
      }
      text := text + MARKER;
    } else {
      assert lines[..i] == lines;
    }
  }

  lemma Stops(lines: seq<string>, k: nat, budget: int)
    requires k < |lines| && Fits(lines, k, budget) && |Joined(lines[..k + 1])| > budget
    ensures LongestFit(lines, k, budget) && |Joined(lines)| > budget
  {
    forall m | k < m <= |lines| ensures |Joined(lines[..m])| > budget {
      PrefixesGrow(lines, k + 1, m);
    }
    assert lines[..|lines|] == lines;
  }
}
