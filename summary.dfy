/** The summary clean-up `Feed` applies to every item it loads
    (`CleanSummary` and its local `RemoveTag`): keep the first paragraph,
    strip the unwanted inline tags while keeping their text, decode
    entities, drop line endings and trim. */
module Summaries {
  import opened Wrappers
  import opened Strings

  /** How a clean-up ends without a result: the exception `Substring` and
      `Remove` throw on a bad range (`ArgumentOutOfRangeException`), or a
      `RemoveTag` loop that never ends (`Diverges`). */
  datatype Fault = OutOfRange | Diverges

  /** `String.Substring(start, length)`. */
  function Substring(s: string, start: int, length: int): (r: Result<string, Fault>)
    ensures r.Success? <==> 0 <= start && 0 <= length && start + length <= |s|
    ensures r.Success? ==> |r.value| == length && OccursAt(s, r.value, start)
  {
    if 0 <= start && 0 <= length && start + length <= |s| then Success(s[start..start + length])
    else Failure(OutOfRange)
  }

  /** `String.Remove(start, count)`. */
  function Remove(s: string, start: int, count: int): (r: Result<string, Fault>)
    ensures r.Success? <==> 0 <= start && 0 <= count && start + count <= |s|
    ensures r.Success? ==> |r.value| == |s| - count
  {
    if 0 <= start && 0 <= count && start + count <= |s| then Success(s[..start] + s[start + count..])
    else Failure(OutOfRange)
  }

  // ---------------------------------------------------------------------
  // One pass of the RemoveTag loop
  // ---------------------------------------------------------------------

  /** The first `>` at or after the end of the first `openTag`, or -1. */
  function CloseAfter(s: string, openTag: string): (r: int)
    requires Contains(s, openTag)
    ensures r == -1 || (IndexOf(s, openTag) + |openTag| <= r < |s| && s[r] == '>')
  {
    var start := IndexOf(s, openTag);
    IndexOfFrom(s, ">", start + |openTag|)
  }

  /** One iteration of the loop exactly as written:
      `Remove(start, end - start + 1)` with `end` the position of that `>`.
      When there is none, `end` is -1: at position 0 this removes nothing,
      anywhere else the count is negative and `Remove` throws. */
  function RemoveStepAsWritten(s: string, openTag: string): (r: Result<string, Fault>)
    requires Contains(s, openTag)
    ensures r.Failure? <==> IndexOf(s, openTag) > 0 && CloseAfter(s, openTag) == -1
    ensures IndexOf(s, openTag) == 0 && CloseAfter(s, openTag) == -1 ==> r == Success(s)
    ensures CloseAfter(s, openTag) != -1 ==> r.Success? && |r.value| < |s| - |openTag|
  {
    var start := IndexOf(s, openTag);
    var end := CloseAfter(s, openTag);
    assert s[..0] + s[0..] == s;
    Remove(s, start, end - start + 1)
  }

  /** One iteration with the unterminated tag treated alike at every
      position: it throws. Otherwise the first tag, through its `>`, is cut
      out, so the summary gets strictly shorter. */
  function RemoveStep(s: string, openTag: string): (r: Result<string, Fault>)
    requires Contains(s, openTag)
    ensures r.Failure? <==> CloseAfter(s, openTag) == -1
    ensures r.Success? ==> |r.value| < |s| - |openTag|
  {
    var start := IndexOf(s, openTag);
    var end := CloseAfter(s, openTag);
    if end < 0 then Failure(OutOfRange) else Remove(s, start, end - start + 1)
  }

  /** Where the written step does not stall, it agrees with the corrected one. */
  lemma StepAgrees(s: string, openTag: string)
    requires Contains(s, openTag)
    requires CloseAfter(s, openTag) != -1 || IndexOf(s, openTag) > 0
    ensures RemoveStepAsWritten(s, openTag) == RemoveStep(s, openTag)
  {
  }

  /** The written loop never ends on a summary that begins with the open tag
      and has no `>` after it: the step hands back the same summary, which
      still contains the tag. */
  lemma AsWrittenStalls(tag: string, rest: string)
    requires '>' !in rest
    ensures Contains(("<" + tag) + rest, "<" + tag)
    ensures RemoveStepAsWritten(("<" + tag) + rest, "<" + tag) == Success(("<" + tag) + rest)
  {
    var openTag := "<" + tag;
    var s := openTag + rest;
    assert OccursAt(s, openTag, 0);
    assert IndexOf(s, openTag) == 0;
    forall i | |openTag| <= i <= |s| - 1 ensures !OccursAt(s, ">", i) {
      assert s[i..i + 1][0] == rest[i - |openTag|];
    }
    IndexOfFromNone(s, ">", |openTag|);
    assert s[..0] + s[0..] == s;
  }

  /** One turn of the loop as the program runs it: the written step where it
      makes progress or throws, and `Diverges` where it would hand back the
      same summary forever. */
  function LoopTurn(s: string, openTag: string): (r: Result<string, Fault>)
    requires Contains(s, openTag)
    ensures r == Failure(Diverges) <==> IndexOf(s, openTag) == 0 && CloseAfter(s, openTag) == -1
    ensures r == Failure(OutOfRange) <==> IndexOf(s, openTag) > 0 && CloseAfter(s, openTag) == -1
    ensures r.Success? ==> |r.value| < |s| - |openTag|
    ensures r.Success? ==> r == RemoveStepAsWritten(s, openTag)
  {
    if IndexOf(s, openTag) == 0 && CloseAfter(s, openTag) == -1 then Failure(Diverges)
    else
      StepAgrees(s, openTag);
      RemoveStep(s, openTag)
  }

  /** `IndexOfFrom` finds nothing when nothing occurs from `from` on. */
  lemma {:induction false} IndexOfFromNone(s: string, p: string, from: int)
    requires 0 <= from <= |s| && |p| > 0
    requires forall i :: from <= i <= |s| - |p| ==> !OccursAt(s, p, i)
    ensures IndexOfFrom(s, p, from) == -1
    decreases |s| - from
  {
    if from + |p| <= |s| {
      IndexOfFromNone(s, p, from + 1);
    }
  }

  /** The corrected step cuts out exactly the first tag: the text before it
      and after its `>` is kept. */
  lemma StepCutsFirstTag(a: string, openTag: string, m: string, b: string)
    requires IndexOf(a + openTag + m + ">" + b, openTag) == |a|
    requires '>' !in m
    ensures Contains(a + openTag + m + ">" + b, openTag)
    ensures RemoveStep(a + openTag + m + ">" + b, openTag) == Success(a + b)
  {
    var s := a + openTag + m + ">" + b;
    var end := |a| + |openTag| + |m|;
    assert OccursAt(s, ">", end);
    forall i | |a| + |openTag| <= i < end ensures !OccursAt(s, ">", i) {
      assert s[i..i + 1][0] == m[i - |a| - |openTag|];
    }
    IndexOfFromFirst(s, ">", |a| + |openTag|, end);
    assert s[..|a|] == a;
    assert s[end + 1..] == b;
  }

  // ---------------------------------------------------------------------
  // RemoveTag
  // ---------------------------------------------------------------------

  /** The `while` loop of `RemoveTag`: turns until the open tag is gone. */
  function RemoveOpenTags(s: string, openTag: string): (r: Result<string, Fault>)
    ensures r.Success? ==> !Contains(r.value, openTag) && |r.value| <= |s|
    decreases |s|
  {
    if !Contains(s, openTag) then Success(s)
    else
      match LoopTurn(s, openTag)
      case Failure(e) => Failure(e)
      case Success(t) => RemoveOpenTags(t, openTag)
  }

  function OpenTag(tag: string): string { "<" + tag }

  function CloseTag(tag: string): string { "</" + tag + ">" }

  /** `RemoveTag(tag)`: when the open tag occurs, every occurrence is cut
      out through its `>`, and then every closing tag is deleted; when it
      does not, the summary is returned untouched, closing tags included. */
  function RemoveTagSpec(s: string, tag: string): (r: Result<string, Fault>)
    ensures r.Failure? ==> Contains(s, OpenTag(tag))
    ensures r.Success? ==> |r.value| <= |s|
  {
    if !Contains(s, OpenTag(tag)) then Success(s)
    else
      match RemoveOpenTags(s, OpenTag(tag))
      case Failure(e) => Failure(e)
      case Success(t) => Success(Replace(t, CloseTag(tag), ""))
  }

  /** `Remove(start, end - start + 1)` cuts out `start` through `end`. */
  lemma RemoveThrough(s: string, start: int, end: int)
    requires 0 <= start <= end < |s|
    ensures Remove(s, start, end - start + 1) == Success(s[..start] + s[end + 1..])
  {
  }

  /** `CloseAfter` in the loop's own terms. */
  lemma CloseAfterValue(s: string, openTag: string)
    requires Contains(s, openTag)
    ensures CloseAfter(s, openTag) == IndexOfFrom(s, ">", IndexOf(s, openTag) + |openTag|)
  {
  }

  /** `RemoveStep` in the loop's own terms. */
  lemma RemoveStepValue(s: string, openTag: string)
    requires Contains(s, openTag)
    ensures CloseAfter(s, openTag) >= 0 ==>
      RemoveStep(s, openTag) == Remove(s, IndexOf(s, openTag), CloseAfter(s, openTag) - IndexOf(s, openTag) + 1)
  {
  }

  /** A turn of the loop that finds no `>` after a tag past the start
      throws: the count `Remove` is given is negative. */
  lemma LoopStepThrows(s: string, openTag: string, startIndex: int, endIndex: int)
    requires |openTag| > 0 && Contains(s, openTag)
    requires startIndex == IndexOf(s, openTag) && startIndex > 0
    requires endIndex == IndexOfFrom(s, ">", startIndex + |openTag|)
    requires endIndex < 0
    ensures RemoveOpenTags(s, openTag) == Failure(OutOfRange)
  {
    CloseAfterValue(s, openTag);
    assert LoopTurn(s, openTag) == Failure(OutOfRange);
  }

  /** A turn of the loop that finds no `>` after a tag at the start removes
      nothing, so the loop never ends. */
  lemma LoopStepStalls(s: string, openTag: string, startIndex: int, endIndex: int)
    requires |openTag| > 0 && Contains(s, openTag)
    requires startIndex == IndexOf(s, openTag) && startIndex == 0
    requires endIndex == IndexOfFrom(s, ">", startIndex + |openTag|)
    requires endIndex < 0
    ensures RemoveStepAsWritten(s, openTag) == Success(s)
    ensures RemoveOpenTags(s, openTag) == Failure(Diverges)
  {
    CloseAfterValue(s, openTag);
    assert LoopTurn(s, openTag) == Failure(Diverges);
  }

  /** A turn of the loop that finds a `>` cuts out the tag through it and
      leaves the outcome of the loop as it was. */
  lemma LoopStep(s: string, openTag: string, startIndex: int, endIndex: int)
    requires |openTag| > 0 && Contains(s, openTag)
    requires startIndex == IndexOf(s, openTag)
    requires endIndex == IndexOfFrom(s, ">", startIndex + |openTag|)
    requires endIndex >= 0
    ensures startIndex < endIndex < |s|
    ensures RemoveOpenTags(s, openTag) == RemoveOpenTags(s[..startIndex] + s[endIndex + 1..], openTag)
  {
    var t := s[..startIndex] + s[endIndex + 1..];
    CloseAfterValue(s, openTag);
    assert CloseAfter(s, openTag) == endIndex;
    RemoveStepValue(s, openTag);
    assert RemoveStep(s, openTag) == Remove(s, startIndex, endIndex - startIndex + 1);
    RemoveThrough(s, startIndex, endIndex);
    assert RemoveStep(s, openTag) == Success(t);
    OpenTagsAfterStep(s, openTag, t);
  }

  /** The loop goes on from the summary one step leaves. */
  lemma OpenTagsAfterStep(s: string, openTag: string, t: string)
    requires Contains(s, openTag) && RemoveStep(s, openTag) == Success(t)
    ensures RemoveOpenTags(s, openTag) == RemoveOpenTags(t, openTag)
  {
  }

  /** The loop of `RemoveTag`, on a local copy of the summary. */
  method RemoveTag(summary: string, tag: string) returns (r: Result<string, Fault>)
    ensures r == RemoveTagSpec(summary, tag)
  {
    var openTag := "<" + tag;
    var s := summary;
    if Contains(s, openTag) {
      while Contains(s, openTag)
        invariant RemoveOpenTags(s, openTag) == RemoveOpenTags(summary, openTag)
        decreases |s|
      {
        var startIndex := IndexOf(s, openTag);
        var endIndex := IndexOfFrom(s, ">", startIndex + |openTag|);
        if endIndex < 0 {
          if startIndex == 0 {
            LoopStepStalls(s, openTag, startIndex, endIndex);
            return Failure(Diverges);
          }
          LoopStepThrows(s, openTag, startIndex, endIndex);
          return Failure(OutOfRange);
        }
        LoopStep(s, openTag, startIndex, endIndex);
        s := s[..startIndex] + s[endIndex + 1..];
      }
      assert RemoveOpenTags(s, openTag) == Success(s);
      s := Replace(s, "</" + tag + ">", "");
    }
    return Success(s);
  }

  /** A summary that opens the tag at its very start and has no `>` after
      it never comes out of the loop. */
  lemma StallAtStart(tag: string, m: string)
    requires '>' !in m
    ensures RemoveTagSpec(OpenTag(tag) + m, tag) == Failure(Diverges)
  {
    var s := OpenTag(tag) + m;
    var openTag := OpenTag(tag);
    assert s[0..|openTag|] == openTag;
    assert OccursAt(s, openTag, 0);
    forall i | |openTag| <= i <= |s| - 1 ensures !OccursAt(s, ">", i) {
      assert s[i] == m[i - |openTag|];
      assert s[i..i + 1][0] == s[i];
    }
    IndexOfFromNone(s, ">", |openTag|);
    assert LoopTurn(s, openTag) == Failure(Diverges);
  }

  /** Before the closing tags are deleted, no open tag remains. */
  lemma OpenTagsGone(s: string, tag: string)
    requires RemoveOpenTags(s, OpenTag(tag)).Success?
    ensures !Contains(RemoveOpenTags(s, OpenTag(tag)).value, OpenTag(tag))
  {
  }

  /** A summary without the open tag keeps its closing tags. */
  lemma ClosingTagsKeptWithoutOpening(a: string, tag: string, b: string)
    requires !Contains(a + CloseTag(tag) + b, OpenTag(tag))
    ensures RemoveTagSpec(a + CloseTag(tag) + b, tag) == Success(a + CloseTag(tag) + b)
  {
  }

  /** A lone tag is cut out whole, through its `>`, together with its
      closing tag; the tag name may run on, so `b` also strips `<br>`. */
  lemma LoneTagRemoved(a: string, tag: string, m: string, c: string)
    requires IndexOf(a + OpenTag(tag) + m + ">" + c, OpenTag(tag)) == |a|
    requires '>' !in m
    requires !Contains(a + c, OpenTag(tag)) && !Contains(a + c, CloseTag(tag))
    ensures RemoveTagSpec(a + OpenTag(tag) + m + ">" + c, tag) == Success(a + c)
  {
    var s := a + OpenTag(tag) + m + ">" + c;
    StepCutsFirstTag(a, OpenTag(tag), m, c);
    assert RemoveOpenTags(a + c, OpenTag(tag)) == Success(a + c);
    assert RemoveOpenTags(s, OpenTag(tag)) == Success(a + c);
    ReplaceAbsent(a + c, CloseTag(tag), "");
  }

  /** Deleting closing tags can join a new open tag: the result may still
      hold `<b`. */
  lemma OpenTagCanReappear()
    ensures RemoveTagSpec("<b><</b>b>", "b") == Success("<b>")
  {
    var s := "<b><</b>b>";
    var t := "<</b>b>";
    ExampleFirstStep();
    ExampleNoOpenTag();
    assert RemoveOpenTags(t, "<b") == Success(t);
    OpenTagsAfterStep(s, "<b", t);
    ExampleClosingTagDeleted();
    assert OpenTag("b") == "<b" && CloseTag("b") == "</b>";
  }

  /** Deleting closing tags can also join a new closing tag: with the open
      tag present, `</b>` may still be in the result. */
  lemma ClosingTagCanSurvive()
    ensures RemoveTagSpec("<b></</b>b>>", "b") == Success("</b>>")
    ensures Contains("</b>>", "</b>")
  {
    var s := "<b></</b>b>>";
    var t := "</</b>b>>";
    SurviveFirstStep();
    SurviveNoOpenTag();
    assert RemoveOpenTags(t, "<b") == Success(t);
    OpenTagsAfterStep(s, "<b", t);
    SurviveClosingTagDeleted();
    assert OpenTag("b") == "<b" && CloseTag("b") == "</b>";
    assert OccursAt("</b>>", "</b>", 0);
  }

  /** The first step on that example cuts out the leading `<b>`. */
  lemma SurviveFirstStep()
    ensures Contains("<b></</b>b>>", "<b")
    ensures RemoveStep("<b></</b>b>>", "<b") == Success("</</b>b>>")
  {
    var s := "<b></</b>b>>";
    assert OccursAt(s, "<b", 0);
    IndexOfFromFirst(s, "<b", 0, 0);
    assert OccursAt(s, ">", 2);
    IndexOfFromFirst(s, ">", 2, 2);
    RemoveThrough(s, 0, 2);
    assert s[..0] + s[3..] == "</</b>b>>";
  }

  /** What is left after that step holds no `<b`. */
  lemma SurviveNoOpenTag()
    ensures !Contains("</</b>b>>", "<b")
  {
    var t := "</</b>b>>";
    forall i | 0 <= i < |t| - 1 && t[i] == '<' ensures t[i + 1] != 'b' {
      assert i == 0 || i == 2;
    }
    NoPair(t, '<', 'b');
    assert [ '<', 'b' ] == "<b";
  }

  /** Deleting the closing tag joins `</` and `b>`. */
  lemma SurviveClosingTagDeleted()
    ensures Replace("</</b>b>>", "</b>", "") == "</b>>"
  {
    var t := "</</b>b>>";
    assert t[..4] != "</b>" by { assert t[2] != 'b'; }
    assert t[1..][..4] != "</b>" by { assert t[1] != '<'; }
    assert t[2..][..4] == "</b>";
    assert t[2..][4..] == "b>>";
    assert Replace(t[1..], "</b>", "") == "/" + Replace(t[2..], "</b>", "");
    assert Replace(t, "</b>", "") == "<" + Replace(t[1..], "</b>", "");
    assert Replace("b>>", "</b>", "") == "b>>";
    assert "<" + "/" + "b>>" == "</b>>";
  }

  /** The first step on the example cuts out the leading `<b>`. */
  lemma ExampleFirstStep()
    ensures Contains("<b><</b>b>", "<b")
    ensures RemoveStep("<b><</b>b>", "<b") == Success("<</b>b>")
  {
    var s := "<b><</b>b>";
    assert OccursAt(s, "<b", 0);
    IndexOfFromFirst(s, "<b", 0, 0);
    assert OccursAt(s, ">", 2);
    IndexOfFromFirst(s, ">", 2, 2);
    RemoveThrough(s, 0, 2);
    assert s[..0] + s[3..] == "<</b>b>";
  }

  /** No `c` in `t` is directly followed by `d`. */
  lemma NoPair(t: string, c: char, d: char)
    requires forall i :: 0 <= i < |t| - 1 && t[i] == c ==> t[i + 1] != d
    ensures !Contains(t, [c, d])
  {
    forall i | 0 <= i <= |t| - 2 ensures !OccursAt(t, [c, d], i) {
      assert t[i..i + 2][0] == t[i] && t[i..i + 2][1] == t[i + 1];
    }
  }

  /** What is left after the first step holds no `<b`. */
  lemma ExampleNoOpenTag()
    ensures !Contains("<</b>b>", "<b")
  {
    var t := "<</b>b>";
    forall i | 0 <= i < |t| - 1 && t[i] == '<' ensures t[i + 1] != 'b' {
      assert i == 0 || i == 1 || i == 2 || i == 3 || i == 4 || i == 5;
    }
    NoPair(t, '<', 'b');
    assert [ '<', 'b' ] == "<b";
  }

  /** Deleting the closing tag joins `<` and `b>`. */
  lemma ExampleClosingTagDeleted()
    ensures Replace("<</b>b>", "</b>", "") == "<b>"
  {
    var t := "<</b>b>";
    assert t[..4] != "</b>" by { assert t[1] != '/'; }
    assert t[1..][..4] == "</b>";
    assert t[1..][4..] == "b>";
    assert Replace(t, "</b>", "") == "<" + Replace("b>", "</b>", "");
    assert Replace("b>", "</b>", "") == "b>";
    assert "<" + "b>" == "<b>";
  }

  // ---------------------------------------------------------------------
  // CleanSummary
  // ---------------------------------------------------------------------

  /** The tags `Feed` strips from summaries. */
  const UnwantedTags: seq<string> := ["a", "i", "em", "b", "strong", "code"]

  /** The paragraph step: with a `</p>`, the text from after the first `<p>`
      (from index 2 when there is none) up to the first `</p>`. */
  function FirstParagraph(s: string): (r: Result<string, Fault>)
    ensures !Contains(s, "</p>") ==> r == Success(s)
  {
    if Contains(s, "</p>") then
      var startIndex := IndexOf(s, "<p>") + 3;
      var endIndex := IndexOf(s, "</p>");
      Substring(s, startIndex, endIndex - startIndex)
    else Success(s)
  }

  /** The text between the first `<p>` and the first `</p>` is what is kept. */
  lemma FirstParagraphBetween(a: string, m: string, b: string)
    requires IndexOf(a + "<p>" + m + "</p>" + b, "<p>") == |a|
    requires IndexOf(a + "<p>" + m + "</p>" + b, "</p>") == |a| + 3 + |m|
    ensures FirstParagraph(a + "<p>" + m + "</p>" + b) == Success(m)
  {
    var s := a + "<p>" + m + "</p>" + b;
    assert s[|a| + 3..|a| + 3 + |m|] == m;
  }

  /** A closing `</p>` before the first `<p>` throws. */
  lemma ClosingBeforeOpeningThrows(a: string, b: string)
    requires IndexOf(a + "</p>" + b, "</p>") == |a|
    requires |a| < 2 || IndexOf(a + "</p>" + b, "<p>") > |a|
    ensures FirstParagraph(a + "</p>" + b).Failure?
  {
  }

  /** With `</p>` but no `<p>`, `IndexOf("<p>") + 3` is 2: the text before
      `</p>` is kept without its first two characters. */
  lemma {:induction false} NoOpeningKeepsFromTwo(a: string, b: string)
    requires !Contains(a + "</p>" + b, "<p>")
    requires IndexOf(a + "</p>" + b, "</p>") == |a|
    requires |a| >= 2
    ensures FirstParagraph(a + "</p>" + b) == Success(a[2..])
  {
    var s := a + "</p>" + b;
    assert OccursAt(s, "</p>", |a|);
    assert s[2..|a|] == a[2..];
  }

  /** The summary of the example loses its first two characters. */
  lemma NoOpeningDropsTwo()
    ensures FirstParagraph("Hello world</p>") == Success("llo world")
  {
    var a := "Hello world";
    var s := a + "</p>" + "";
    assert s == "Hello world</p>";
    forall i | 0 <= i <= |s| - 3 ensures !OccursAt(s, "<p>", i) {
      assert s[i..i + 3][0] == s[i];
      assert s[i..i + 3][1] == s[i + 1];
    }
    forall i | 0 <= i < |a| ensures !OccursAt(s, "</p>", i) {
      assert s[i..i + 4][0] == s[i];
      assert s[i..i + 4][1] == s[i + 1];
    }
    assert OccursAt(s, "</p>", |a|);
    assert IndexOf(s, "</p>") == |a|;
    NoOpeningKeepsFromTwo(a, "");
    assert a[2..] == "llo world";
  }

  /** The paragraph step as evidently intended: without a `<p>`, the text
      starts at the beginning of the summary, so nothing before the first
      `</p>` is lost. */
  function FirstParagraphIntended(s: string): (r: Result<string, Fault>)
    ensures !Contains(s, "</p>") ==> r == Success(s)
    ensures Contains(s, "</p>") && !Contains(s, "<p>") ==>
      r.Success? && StartsWith(s, r.value + "</p>") && !Contains(r.value, "</p>")
  {
    if Contains(s, "</p>") then
      var startIndex := if Contains(s, "<p>") then IndexOf(s, "<p>") + 3 else 0;
      var endIndex := IndexOf(s, "</p>");
      var r := Substring(s, startIndex, endIndex - startIndex);
      assert !Contains(s, "<p>") ==>
        (r == Success(s[..endIndex]) && s[..endIndex] + "</p>" == s[..endIndex + 4]
         && !Contains(s[..endIndex], "</p>")) by {
        if !Contains(s, "<p>") {
          NoEarlierInPrefix(s, "</p>", endIndex);
        }
      }
      r
    else Success(s)
  }

  /** An occurrence in `s[..k]` is an occurrence in `s` before `k`. */
  lemma NoEarlierInPrefix(s: string, p: string, k: int)
    requires 0 <= k <= |s| && |p| > 0
    requires forall i :: 0 <= i < k ==> !OccursAt(s, p, i)
    ensures !Contains(s[..k], p)
  {
    forall i | 0 <= i <= k - |p| ensures !OccursAt(s[..k], p, i) {
      assert i < k;
      assert !OccursAt(s, p, i);
      assert s[..k][i..i + |p|] == s[i..i + |p|];
    }
  }

  /** The intended step differs from the written one only when `</p>`
      occurs with no `<p>`. */
  lemma IntendedAgrees(s: string)
    requires !Contains(s, "</p>") || Contains(s, "<p>")
    ensures FirstParagraphIntended(s) == FirstParagraph(s)
  {
  }

  /** The tag loop: `RemoveTag` for each tag in turn. */
  function RemoveTags(s: string, tags: seq<string>): (r: Result<string, Fault>)
    ensures r.Success? ==> |r.value| <= |s|
    decreases |tags|
  {
    if |tags| == 0 then Success(s)
    else
      match RemoveTagSpec(s, tags[0])
      case Failure(e) => Failure(e)
      case Success(t) => RemoveTags(t, tags[1..])
  }

  /** `ReplaceLineEndings("").Trim()`, after `decode` (`HtmlDecode`). */
  function Finish(s: string, decode: string -> string): string {
    Trim(RemoveLineEndings(decode(s)))
  }

  function CleanSummarySpec(summary: string, tags: seq<string>, decode: string -> string): Result<string, Fault> {
    match FirstParagraph(summary)
    case Failure(e) => Failure(e)
    case Success(p) =>
      match RemoveTags(p, tags)
      case Failure(e) => Failure(e)
      case Success(t) => Success(Finish(t, decode))
  }

  /** `CleanSummary(summary, unwantedTags)`. */
  method CleanSummary(summary: string, tags: seq<string>, decode: string -> string)
    returns (r: Result<string, Fault>)
    ensures r == CleanSummarySpec(summary, tags, decode)
  {
    var s := summary;
    if Contains(s, "</p>") {
      var startIndex := IndexOf(s, "<p>") + 3;
      var endIndex := IndexOf(s, "</p>");
      var para := Substring(s, startIndex, endIndex - startIndex);
      if para.Failure? {
        return Failure(para.error);
      }
      s := para.value;
    }
    assert FirstParagraph(summary) == Success(s);
    for i := 0 to |tags|
      invariant RemoveTags(s, tags[i..]) == RemoveTags(FirstParagraph(summary).value, tags)
    {
      assert tags[i..][1..] == tags[i + 1..];
      var t := RemoveTag(s, tags[i]);
      if t.Failure? {
        return Failure(t.error);
      }
      s := t.value;
    }
    assert tags[|tags|..] == [];
    s := decode(s);
    return Success(Trim(RemoveLineEndings(s)));
  }

  /** What `Trim` keeps is a stretch of its input. */
  lemma TrimIsInfix(s: string)
    ensures |s| - |TrimStart(s)| + |Trim(s)| <= |s|
    ensures forall k :: 0 <= k < |Trim(s)| ==> Trim(s)[k] == s[|s| - |TrimStart(s)| + k]
  {
    var a := TrimStart(s);
    TrimStartDrops(s);
    TrimEndDrops(a);
  }

  /** A cleaned summary holds no line ending and starts and ends with a
      character that is not white space. */
  lemma CleanedShape(summary: string, tags: seq<string>, decode: string -> string)
    requires CleanSummarySpec(summary, tags, decode).Success?
    ensures var r := CleanSummarySpec(summary, tags, decode).value;
      && (forall k :: 0 <= k < |r| ==> !IsLineEnding(r[k]))
      && (r == [] || (!IsWhiteSpace(r[0]) && !IsWhiteSpace(r[|r| - 1])))
  {
    var p := FirstParagraph(summary).value;
    var t := RemoveTags(p, tags).value;
    var x := RemoveLineEndings(decode(t));
    TrimIsInfix(x);
  }

  /** The summary `<b` opens a tag at its start and never closes it: the
      clean-up of `b` loops forever. */
  lemma ExampleSummaryStalls(decode: string -> string)
    ensures CleanSummarySpec("<b", UnwantedTags, decode) == Failure(Diverges)
  {
    assert !Contains("<b", "</p>");
    assert "<b"[0..2] == "<b" && "<b"[1] == 'b';
    assert !OccursAt("<b", "<a", 0);
    assert !OccursAt("<b", "<i", 0);
    assert RemoveTagSpec("<b", "a") == Success("<b");
    assert RemoveTagSpec("<b", "i") == Success("<b");
    assert RemoveTagSpec("<b", "em") == Success("<b");
    assert OpenTag("b") + "" == "<b";
    StallAtStart("b", "");
  }
}
