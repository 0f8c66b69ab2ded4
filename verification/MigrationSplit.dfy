/** std::string::find and substr, and the UP/DOWN splitting of migration files. */
module SectionSplitter {
  import opened Wrappers
  import opened Bytes
  import opened Masks

  predicate OccursAt(s: string, pat: string, i: nat) {
    i + |pat| <= |s| && s[i..i + |pat|] == pat
  }

  /** The first occurrence of `pat` at or after `from`. */
  function Find(s: string, pat: string, from: nat): (r: Option<nat>)
    ensures r.Some? ==> from <= r.value && OccursAt(s, pat, r.value)
    ensures forall i :: from <= i < (if r.Some? then r.value else |s| + 1) ==> !OccursAt(s, pat, i)
    decreases |s| + 1 - from
  {
    if from > |s| then None
    else if OccursAt(s, pat, from) then Some(from)
    else Find(s, pat, from + 1)
  }

  /** substr clips the length at the end of the string. */
  function Substr(s: string, pos: nat, len: nat): string
    requires pos <= |s|
  {
    if len <= |s| - pos then s[pos..pos + len] else s[pos..]
  }

  const UP := "-- UP"
  const DOWN := "-- DOWN"

  datatype Sections = Sections(up: string, down: string)

  /** The UP section; the length is computed in size_t and wraps when DOWN comes before the line end. */
  function UpSection(content: string): string {
    var downPos := Find(content, DOWN, 0);
    match Find(content, UP, 0)
    case Some(upPos) =>
      (match Find(content, "\n", upPos)
       case None => ""
       case Some(start) =>
         var end := if downPos.Some? then downPos.value else |content|;
         Substr(content, start + 1, Wrap(end - start - 1)))
    case None => if downPos.Some? then content[..downPos.value] else content
  }

  function DownSection(content: string): string {
    match Find(content, DOWN, 0)
    case None => ""
    case Some(downPos) =>
      match Find(content, "\n", downPos)
      case None => ""
      case Some(start) => Substr(content, start + 1, |content| - (start + 1))
  }

  function Split(content: string): Sections {
    Sections(UpSection(content), DownSection(content))
  }

  function Print(header: string, up: string, down: string): string {
    header + "-- UP\n" + up + "-- DOWN\n" + down
  }

  ghost predicate Contains(s: string, pat: string) {
    exists i: nat :: OccursAt(s, pat, i)
  }

  /** No proper prefix of the pattern is also a suffix. */
  ghost predicate NoBorder(pat: string) {
    forall k :: 0 < k < |pat| ==> pat[..k] != pat[|pat| - k..]
  }

  lemma FindIs(s: string, pat: string, from: nat, i: nat)
    requires from <= i && OccursAt(s, pat, i)
    requires forall j :: from <= j < i ==> !OccursAt(s, pat, j)
    ensures Find(s, pat, from) == Some(i)
  {
  }

  lemma OverlapIsBorder(a: string, pat: string, b: string, i: nat)
    requires i < |a| < i + |pat| && OccursAt(a + pat + b, pat, i)
    ensures var k := i + |pat| - |a|;
            pat[..k] == pat[|pat| - k..]
  {
    var s, k := a + pat + b, i + |pat| - |a|;
    assert pat[|pat| - k..] == s[|a|..|a| + k] == pat[..k];
  }

  /** An occurrence that starts before a marker without borders ends before it. */
  lemma NoStraddle(a: string, pat: string, b: string, i: nat)
    requires NoBorder(pat) && i < |a| && OccursAt(a + pat + b, pat, i)
    ensures OccursAt(a, pat, i)
  {
    if i + |pat| <= |a| {
      assert (a + pat + b)[i..i + |pat|] == a[i..i + |pat|];
    } else {
      OverlapIsBorder(a, pat, b, i);
    }
  }

  /** Occurrences in a slice are the occurrences that fit between its bounds. */
  lemma SliceOccurs(s: string, lo: nat, hi: nat, pat: string, i: nat)
    requires lo <= hi <= |s|
    ensures OccursAt(s[lo..hi], pat, i) <==> lo + i + |pat| <= hi && OccursAt(s, pat, lo + i)
  {
    if lo + i + |pat| <= hi {
      var j, n := lo + i, |pat|;
      var x, y := s[lo..hi][i..i + n], s[j..j + n];
      assert forall k :: 0 <= k < n ==> x[k] == y[k];
    }
  }

  lemma MarkerLetters()
    ensures |UP| == 5 && UP[0] == '-' && UP[1] == '-' && UP[2] == ' ' && UP[3] == 'U' && UP[4] == 'P'
    ensures |DOWN| == 7 && DOWN[0] == '-' && DOWN[1] == '-' && DOWN[2] == ' '
            && DOWN[3] == 'D' && DOWN[4] == 'O' && DOWN[5] == 'W' && DOWN[6] == 'N'
    ensures forall k :: 0 <= k < 7 ==> DOWN[k] != '\n'
  {
    assert UP[4] == 'P';
    assert DOWN[6] == 'N';
  }

  lemma MarkersHaveNoBorder()
    ensures NoBorder(UP) && NoBorder(DOWN)
  {
    MarkerLetters();
    forall k | 0 < k < |UP| ensures UP[..k] != UP[|UP| - k..] {
      assert UP[|UP| - k..][k - 1] == 'P';
    }
    forall k | 0 < k < |DOWN| ensures DOWN[..k] != DOWN[|DOWN| - k..] {
      assert DOWN[|DOWN| - k..][k - 1] == 'N';
    }
  }

  lemma UpLineLetters(line: string)
    requires line == "-- UP\n"
    ensures |line| == 6 && line[5] == '\n' && forall k :: 0 <= k < 6 ==> line[k] != 'N'
  {
    assert line[0] == '-' && line[1] == '-' && line[2] == ' ' && line[3] == 'U' && line[4] == 'P';
  }

  lemma LetterAt(s: string, pat: string, i: nat, k: nat)
    requires OccursAt(s, pat, i) && k < |pat|
    ensures s[i + k] == pat[k]
  {
    var found := s[i..i + |pat|];
    assert found[k] == pat[k];
  }

  /** The only letters that an UP line and a DOWN marker share are never where an overlap needs them. */
  lemma NoOverlap(s: string, line: string, n: nat, i: nat)
    requires line == "-- UP\n" && OccursAt(s, line, n) && OccursAt(s, DOWN, i)
    ensures i + 7 <= n || n + 6 <= i
  {
    MarkerLetters();
    UpLineLetters(line);
    hide OccursAt;
    LetterAt(s, DOWN, i, 6);
    LetterAt(s, line, n, 5);
    if i < n < i + 7 {
      LetterAt(s, line, n, i + 6 - n);
    } else if n <= i < n + 6 {
      LetterAt(s, DOWN, i, n + 5 - i);
    }
  }

  /** Around an UP line a DOWN marker lies wholly before it or wholly after it. */
  lemma DownAvoidsUpLine(a: string, b: string, i: nat)
    requires OccursAt(a + "-- UP\n" + b, DOWN, i)
    ensures OccursAt(a, DOWN, i) || (i >= |a| + 6 && OccursAt(b, DOWN, i - |a| - 6))
  {
    var line := "-- UP\n";
    var s, n := a + line + b, |a|;
    assert s[n..n + 6] == line;
    NoOverlap(s, line, n, i);
    if i + 7 <= n {
      assert s[i..i + 7] == a[i..i + 7];
    } else {
      assert s[i..i + 7] == b[i - n - 6..i - n + 1];
    }
  }

  /** The header may mention UP only if the rest of it has no line end: then the real line end is found. */
  predicate Transparent(header: string) {
    var up := Find(header, UP, 0);
    up.Some? ==> Find(header, "\n", up.value).None?
  }

  /** The pieces of a printed file: the header ends at `n`, the UP text at `m`. */
  ghost predicate Pieces(content: string, n: nat, m: nat, header: string, up: string, down: string) {
    && n == |header| && m == n + 6 + |up| && |content| == m + 8 + |down|
    && content[..n] == header && content[n + 6..m] == up && content[m + 8..] == down
    && OccursAt(content, UP, n) && OccursAt(content, DOWN, m)
    && content[n + 5] == '\n' && content[m + 7] == '\n'
    && (forall k :: n <= k < n + 5 ==> content[k] != '\n')
    && (forall k :: m <= k < m + 7 ==> content[k] != '\n')
  }

  lemma PrintPieces(header: string, up: string, down: string)
    ensures Pieces(Print(header, up, down), |header|, |header| + 6 + |up|, header, up, down)
  {
    var content, n := Print(header, up, down), |header|;
    var m := n + 6 + |up|;
    assert content[n..n + 6] == "-- UP\n";
    assert content[m..m + 8] == "-- DOWN\n";
    assert content[n..n + 5] == UP && content[m..m + 7] == DOWN by {
      assert "-- UP\n"[..5] == UP && "-- DOWN\n"[..7] == DOWN;
    }
    assert forall k :: n <= k < n + 5 ==> content[k] == UP[k - n];
    assert forall k :: m <= k < m + 7 ==> content[k] == DOWN[k - m];
    assert content[n + 5] == "-- UP\n"[5] && content[m + 7] == "-- DOWN\n"[7];
  }

  /** Markers that start before the printed ones lie wholly inside the header or the UP text. */
  lemma EarlierMarkers(header: string, up: string, down: string, i: nat)
    ensures i < |header| && OccursAt(Print(header, up, down), UP, i) ==> OccursAt(header, UP, i)
    ensures i < |header| + 6 + |up| && OccursAt(Print(header, up, down), DOWN, i) ==>
              OccursAt(header, DOWN, i) || (i >= |header| + 6 && OccursAt(up, DOWN, i - |header| - 6))
  {
    hide OccursAt, NoBorder;
    MarkersHaveNoBorder();
    var content := Print(header, up, down);
    var upTail, downTail := "\n" + up + "-- DOWN\n" + down, "\n" + down;
    PrintAroundMarkers(header, up, down);
    if i < |header| && OccursAt(content, UP, i) {
      NoStraddle(header, UP, upTail, i);
    }
    if i < |header| + 6 + |up| && OccursAt(content, DOWN, i) {
      NoStraddle(header + "-- UP\n" + up, DOWN, downTail, i);
      DownAvoidsUpLine(header, up, i);
    }
  }

  lemma PrintAroundMarkers(header: string, up: string, down: string)
    ensures Print(header, up, down) == header + UP + ("\n" + up + "-- DOWN\n" + down)
    ensures Print(header, up, down) == header + "-- UP\n" + up + DOWN + ("\n" + down)
  {
    assert "-- UP\n" == UP + "\n" && "-- DOWN\n" == DOWN + "\n";
  }

  lemma FirstUp(content: string, n: nat, m: nat, header: string, up: string, down: string)
    requires content == Print(header, up, down) && Pieces(content, n, m, header, up, down)
    ensures Find(content, UP, 0) == if Find(header, UP, 0).Some? then Find(header, UP, 0) else Some(n)
  {
    hide Print, OccursAt;
    var first := if Find(header, UP, 0).Some? then Find(header, UP, 0).value else n;
    if Find(header, UP, 0).Some? {
      SliceOccurs(content, 0, n, UP, first);
    }
    forall j | 0 <= j < first ensures !OccursAt(content, UP, j) {
      EarlierMarkers(header, up, down, j);
    }
    FindIs(content, UP, 0, first);
  }

  /** Looking for a line end is looking for the character. */
  lemma NewlineFound(s: string, from: nat)
    ensures var r := Find(s, "\n", from);
            if r.Some? then r.value < |s| && s[r.value] == '\n' && (forall j :: from <= j < r.value ==> s[j] != '\n')
            else forall j :: from <= j < |s| ==> s[j] != '\n'
  {
    forall j: nat ensures OccursAt(s, "\n", j) <==> j < |s| && s[j] == '\n' {
      if j < |s| { assert s[j..j + 1] == [s[j]]; }
    }
  }

  /** Where the line of the first UP marker ends. */
  lemma UpLineEnd(content: string, n: nat, m: nat, header: string, up: string, down: string)
    requires content == Print(header, up, down) && Pieces(content, n, m, header, up, down)
    ensures var p := Find(content, UP, 0);
            && p.Some? && p.value <= n
            && (var q := Find(content, "\n", p.value);
                q.Some? && if Transparent(header) then q.value == n + 5 else q.value < n)
  {
    hide Print, OccursAt;
    FirstUp(content, n, m, header, up, down);
    var p := Find(content, UP, 0).value;
    assert header == content[..n];
    NewlineFound(content, p);
    NewlineFound(header, p);
  }

  lemma SplitRecovers(content: string, n: nat, m: nat, header: string, up: string, down: string)
    requires content == Print(header, up, down) && Pieces(content, n, m, header, up, down)
    requires |content| < TWO_TO_THE_64
    requires Transparent(header) && !Contains(header, DOWN) && !Contains(up, DOWN)
    ensures Split(content) == Sections(up, down)
  {
    hide Print, OccursAt;
    UpLineEnd(content, n, m, header, up, down);
    forall j | 0 <= j < m ensures !OccursAt(content, DOWN, j) {
      EarlierMarkers(header, up, down, j);
    }
    FindIs(content, DOWN, 0, m);
    NewlineFound(content, m);
    hide Find, Transparent;
    WrapSmall(|up|);
  }

  /** A DOWN marker in the header makes the DOWN section too long. */
  lemma DownInHeaderFails(content: string, n: nat, m: nat, header: string, up: string, down: string)
    requires Pieces(content, n, m, header, up, down) && Contains(header, DOWN)
    ensures |DownSection(content)| > |down|
  {
    hide OccursAt;
    var i: nat :| OccursAt(header, DOWN, i);
    SliceOccurs(content, 0, n, DOWN, i);
    var d := Find(content, DOWN, 0).value;
    assert d <= i;
    NewlineFound(content, d);
  }

  /** A DOWN marker in the UP text cuts it off: what is recovered contains no marker. */
  lemma DownInUpFails(content: string, n: nat, m: nat, header: string, up: string, down: string)
    requires content == Print(header, up, down) && Pieces(content, n, m, header, up, down)
    requires |content| < TWO_TO_THE_64
    requires !Contains(header, DOWN) && Contains(up, DOWN)
    ensures UpSection(content) != up
  {
    hide Print, OccursAt, UpSection;
    UpLineEnd(content, n, m, header, up, down);
    var i: nat :| OccursAt(up, DOWN, i);
    SliceOccurs(content, n + 6, m, DOWN, i);
    var d := Find(content, DOWN, 0).value;
    EarlierMarkers(header, up, down, d);
    var start := Find(content, "\n", Find(content, UP, 0).value).value;
    UpSectionBetween(content, start, d);
    SliceOccurs(content, start + 1, d, DOWN, i);
  }

  lemma UpSectionBetween(content: string, start: nat, d: nat)
    requires start < d <= |content| < TWO_TO_THE_64 && Find(content, DOWN, 0) == Some(d)
    requires Find(content, UP, 0).Some? && Find(content, "\n", Find(content, UP, 0).value) == Some(start)
    ensures UpSection(content) == content[start + 1..d]
  {
    hide Find, OccursAt, Wrap;
    WrapSmall(d - start - 1);
  }

  /** An earlier UP line in the header makes the UP section too long. */
  lemma OpaqueHeaderFails(content: string, n: nat, m: nat, header: string, up: string, down: string)
    requires content == Print(header, up, down) && Pieces(content, n, m, header, up, down)
    requires |content| < TWO_TO_THE_64
    requires !Transparent(header) && !Contains(header, DOWN) && !Contains(up, DOWN)
    ensures |UpSection(content)| > |up|
  {
    hide Print, OccursAt;
    UpLineEnd(content, n, m, header, up, down);
    var d := Find(content, DOWN, 0).value;
    EarlierMarkers(header, up, down, d);
    assert d == m;
    WrapSmall(d - Find(content, "\n", Find(content, UP, 0).value).value - 1);
  }

  /**
   Splitting a printed migration file recovers exactly its two sections if and only if neither the
   header nor the UP text contains a DOWN marker and the header hides no earlier UP line.
   */
  lemma SplitUndoesPrint(header: string, up: string, down: string)
    requires |Print(header, up, down)| < TWO_TO_THE_64
    ensures Split(Print(header, up, down)) == Sections(up, down)
            <==> Transparent(header) && !Contains(header, DOWN) && !Contains(up, DOWN)
  {
    var content, n := Print(header, up, down), |header|;
    var m := n + 6 + |up|;
    PrintPieces(header, up, down);
    hide Print, Pieces, UpSection, DownSection;
    if Contains(header, DOWN) {
      DownInHeaderFails(content, n, m, header, up, down);
    } else if Contains(up, DOWN) {
      DownInUpFails(content, n, m, header, up, down);
    } else if Transparent(header) {
      SplitRecovers(content, n, m, header, up, down);
    } else {
      OpaqueHeaderFails(content, n, m, header, up, down);
    }
  }

  // The sections of any text, marker by marker.

  ghost predicate OneLineEnd(line: string) {
    forall k :: 0 <= k < |line| ==> line[k] != '\n'
  }

  /** The first marker is the one shown if the text before it has none. */
  lemma FirstMarker(before: string, pat: string, after: string)
    requires NoBorder(pat) && !Contains(before, pat)
    ensures Find(before + pat + after, pat, 0) == Some(|before|)
  {
    hide NoBorder, OccursAt;
    var content := before + pat + after;
    forall j | 0 <= j < |before| ensures !OccursAt(content, pat, j) {
      if OccursAt(content, pat, j) {
        NoStraddle(before, pat, after, j);
      }
    }
    MarkerShown(before, pat, after);
    FindIs(content, pat, 0, |before|);
  }

  lemma MarkerShown(before: string, pat: string, after: string)
    ensures OccursAt(before + pat + after, pat, |before|)
  {
  }

  lemma NoMarker(content: string, pat: string)
    requires !Contains(content, pat)
    ensures Find(content, pat, 0) == None
  {
  }

  /** The line of a marker ends where it is shown to. */
  lemma MarkerLineEnd(before: string, pat: string, line: string, after: string)
    requires OneLineEnd(pat) && OneLineEnd(line)
    ensures Find(before + pat + line + "\n" + after, "\n", |before|) == Some(|before| + |pat| + |line|)
    ensures Find(before + pat + line, "\n", |before|) == None
  {
    hide Find;
    NewlineFound(before + pat + line + "\n" + after, |before|);
    NewlineFound(before + pat + line, |before|);
    assert (before + pat + line + "\n" + after)[|before| + |pat| + |line|] == '\n';
  }

  /** An UP marker without a DOWN marker: everything after its line is the UP section. */
  lemma UpOnly(header: string, line: string, up: string)
    requires var content := header + "-- UP" + line + "\n" + up;
             !Contains(content, "-- DOWN") && |content| < TWO_TO_THE_64
    requires !Contains(header, "-- UP") && OneLineEnd(line)
    ensures Split(header + "-- UP" + line + "\n" + up) == Sections(up, "")
  {
    hide Find, OneLineEnd;
    var content := header + "-- UP" + line + "\n" + up;
    MarkersHaveNoBorder();
    MarkersAreLines();
    NoMarker(content, "-- DOWN");
    assert content == header + "-- UP" + (line + "\n" + up);
    FirstMarker(header, "-- UP", line + "\n" + up);
    MarkerLineEnd(header, "-- UP", line, up);
    WrapSmall(|up|);
  }

  lemma MarkersAreLines()
    ensures OneLineEnd("-- UP") && OneLineEnd("-- DOWN")
  {
    MarkerLetters();
    assert UP == "-- UP" && DOWN == "-- DOWN";
  }

  /** A DOWN marker without an UP marker: the text before it is the UP section. */
  lemma DownOnly(up: string, line: string, down: string)
    requires !Contains(up + "-- DOWN" + line + "\n" + down, "-- UP")
    requires !Contains(up, "-- DOWN") && OneLineEnd(line)
    ensures Split(up + "-- DOWN" + line + "\n" + down) == Sections(up, down)
  {
    hide Find, OneLineEnd;
    var content := up + "-- DOWN" + line + "\n" + down;
    MarkersHaveNoBorder();
    MarkersAreLines();
    NoMarker(content, "-- UP");
    assert content == up + "-- DOWN" + (line + "\n" + down);
    FirstMarker(up, "-- DOWN", line + "\n" + down);
    MarkerLineEnd(up, "-- DOWN", line, down);
  }

  /** Without markers the whole text is the UP section. */
  lemma NoMarkers(content: string)
    requires !Contains(content, "-- UP") && !Contains(content, "-- DOWN")
    ensures Split(content) == Sections(content, "")
  {
    hide Find;
    NoMarker(content, "-- UP");
    NoMarker(content, "-- DOWN");
  }

  /** A marker whose line has no end has an empty section. */
  lemma UnendedMarkers(before: string, line: string)
    requires OneLineEnd(line)
    ensures !Contains(before, "-- UP") ==> UpSection(before + "-- UP" + line) == ""
    ensures !Contains(before, "-- DOWN") ==> DownSection(before + "-- DOWN" + line) == ""
  {
    hide Find, OneLineEnd;
    MarkersHaveNoBorder();
    MarkersAreLines();
    MarkerLineEnd(before, "-- UP", line, "");
    MarkerLineEnd(before, "-- DOWN", line, "");
    if !Contains(before, "-- UP") {
      FirstMarker(before, "-- UP", line);
    }
    if !Contains(before, "-- DOWN") {
      FirstMarker(before, "-- DOWN", line);
    }
  }

  lemma WrapNegative(x: int)
    requires -TWO_TO_THE_64 <= x < 0
    ensures Wrap(x) == x + TWO_TO_THE_64
  {
  }

  /** A DOWN marker that starts before the end of the first UP line does not bound the UP section. */
  lemma DownBeforeUpLineEnd(header: string, line: string, rest: string)
    requires !Contains(header, "-- UP") && OneLineEnd(line)
    requires Contains(header + "-- UP" + line, "-- DOWN")
    requires |header + "-- UP" + line + "\n" + rest| < TWO_TO_THE_64
    ensures UpSection(header + "-- UP" + line + "\n" + rest) == rest
  {
    hide Find, OneLineEnd, OccursAt, NoBorder;
    var before := header + "-- UP" + line;
    var content := before + "\n" + rest;
    MarkersHaveNoBorder();
    MarkersAreLines();
    assert content == header + "-- UP" + (line + "\n" + rest);
    FirstMarker(header, "-- UP", line + "\n" + rest);
    MarkerLineEnd(header, "-- UP", line, rest);
    var i: nat :| OccursAt(before, "-- DOWN", i);
    assert content[0..|before|] == before;
    SliceOccurs(content, 0, |before|, "-- DOWN", i);
    var d := Find(content, "-- DOWN", 0).value;
    WrapNegative(d - |before| - 1);
  }
}
