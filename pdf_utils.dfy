/** The page chunkers of the Python ingestion service.  Both turn the list of
    page strings produced by PDF extraction into chunk records; both work page
    by page, so a chunk never spans two pages. */
module PdfUtils {
  import opened Wrappers
  import opened Text
  import opened PyStr

  const DEFAULT_MAX_CHARS: int := 1500
  const DEFAULT_OVERLAP: int := 200

  /** The dictionary `{text, page_start, page_end, chunk_index}`. */
  datatype ChunkDraft = ChunkDraft(text: string, pageStart: nat, pageEnd: nat, chunkIndex: nat)

  /** Which of the two chunkers runs on a page longer than `max_chars`. */
  datatype Chunker = Fixed | Smart

  /** The texts `chunk_text` may emit: non-blank, stripped, and, for a
      positive window size, no longer than a window. */
  predicate FixedShaped(texts: seq<string>, maxChars: int) {
    forall i :: 0 <= i < |texts| ==>
      texts[i] != [] && IsStripped(texts[i]) && (maxChars > 0 ==> |texts[i]| <= maxChars)
  }

  /** `chunk_text` never gets past this page: its window loop only runs on a
      page that is not blank and longer than `max_chars`, and there `start`
      never moves forward. */
  datatype Stuck = WindowLoopStuck(page: nat)

  // ----- fixed windows (chunk_text) -----------------------------------------

  /** The window loop's `start` moves forward on every turn: either the
      window has a positive size, or the overlap is below it. */
  predicate Advances(maxChars: int, overlap: int) {
    maxChars > 0 || overlap < maxChars
  }

  /** `chunk_text` gets past this page: it is skipped, it fits in one chunk,
      or its window loop advances. */
  predicate FixedPageEnds(page: string, maxChars: int, overlap: int) {
    Strip(page) == [] || |page| <= maxChars || Advances(maxChars, overlap)
  }

  /** `chunk_text` gets past every page. */
  predicate FixedEnds(pages: seq<string>, maxChars: int, overlap: int) {
    forall p :: 0 <= p < |pages| ==> FixedPageEnds(pages[p], maxChars, overlap)
  }

  /** Where the next window starts: `end - overlap`, or `end` itself when the
      overlap is at least the window size.  It lies ahead of `start` exactly
      when the loop `Advances`; otherwise it is `end`, which is not ahead. */
  function NextStart(start: int, maxChars: int, overlap: int): (next: int)
    ensures Advances(maxChars, overlap) <==> start < next
    ensures !Advances(maxChars, overlap) ==> next == start + maxChars
    ensures overlap >= 0 ==> next <= start + maxChars
    ensures 0 <= overlap < maxChars ==> next == start + maxChars - overlap
  {
    var end := start + maxChars;
    if overlap >= maxChars then end else end - overlap
  }

  /** Python's `page[start:start + max_chars]`, with a negative end bound
      counting from the end of the page. */
  function Window(page: string, start: nat, maxChars: int): (w: string)
    ensures maxChars > 0 ==> |w| <= maxChars
    ensures maxChars > 0 && start < |page| ==> |w| == Min(maxChars, |page| - start)
    ensures maxChars == 0 ==> w == []
  {
    Slice(page, start, start + maxChars)
  }

  /** A negative `max_chars` makes the end bound count from the end of the
      page: a window is non-empty only while its end bound is negative, and
      then it runs from `start` to `max_chars` characters before the end. */
  lemma NegativeWindow(page: string, start: nat, maxChars: int)
    requires maxChars < 0
    ensures Window(page, start, maxChars)
         == if start + maxChars < 0 && |page| + maxChars > 0 then page[start..|page| + start + maxChars] else []
  {
  }

  /** What the window at `start` contributes: its stripped text, unless that
      is empty. */
  function WindowText(page: string, start: nat, maxChars: int): (ts: seq<string>)
    ensures |ts| <= 1 && FixedShaped(ts, maxChars)
    ensures ts == [] <==> Strip(Window(page, start, maxChars)) == []
  {
    var t := Strip(Window(page, start, maxChars));
    if t != [] then [t] else []
  }

  /** The values `start` takes in the `while start < len(page_text)` loop. */
  function WindowStarts(len: nat, start: nat, maxChars: int, overlap: int): (ws: seq<nat>)
    requires Advances(maxChars, overlap)
    ensures start < len <==> ws != []
    ensures ws != [] ==> ws[0] == start
    decreases len - start
  {
    if start >= len then []
    else [start] + WindowStarts(len, NextStart(start, maxChars, overlap), maxChars, overlap)
  }

  /** The texts the windows starting at `ws` contribute, in order. */
  function WindowTexts(page: string, ws: seq<nat>, maxChars: int): (ts: seq<string>)
    ensures |ts| <= |ws| && FixedShaped(ts, maxChars)
  {
    if ws == [] then []
    else WindowText(page, ws[0], maxChars) + WindowTexts(page, ws[1..], maxChars)
  }

  /** The window loop itself, one turn per call: `acc` holds the texts of the
      windows before `start`. */
  function WindowLoop(page: string, start: nat, maxChars: int, overlap: int, acc: seq<string>): seq<string>
    requires Advances(maxChars, overlap)
    decreases |page| - start
  {
    if start >= |page| then acc
    else WindowLoop(page, NextStart(start, maxChars, overlap), maxChars, overlap, acc + WindowText(page, start, maxChars))
  }

  /** The loop emits, after what it already holds, the texts of the windows
      from `start` on. */
  lemma {:induction false} WindowLoopTexts(page: string, start: nat, maxChars: int, overlap: int, acc: seq<string>)
    requires Advances(maxChars, overlap)
    ensures WindowLoop(page, start, maxChars, overlap, acc)
         == acc + WindowTexts(page, WindowStarts(|page|, start, maxChars, overlap), maxChars)
    decreases |page| - start
  {
    if start < |page| {
      var next := NextStart(start, maxChars, overlap);
      var ws := WindowStarts(|page|, start, maxChars, overlap);
      WindowLoopTexts(page, next, maxChars, overlap, acc + WindowText(page, start, maxChars));
      assert ws[1..] == WindowStarts(|page|, next, maxChars, overlap);
    }
  }

  /** Every window start lies in `[start, len)`. */
  lemma {:induction false} StartsBounds(len: nat, start: nat, maxChars: int, overlap: int)
    requires Advances(maxChars, overlap)
    ensures forall k :: 0 <= k < |WindowStarts(len, start, maxChars, overlap)| ==>
      start <= WindowStarts(len, start, maxChars, overlap)[k] < len
    decreases len - start
  {
    if start < len {
      var next := NextStart(start, maxChars, overlap);
      StartsBounds(len, next, maxChars, overlap);
      var ws := WindowStarts(len, start, maxChars, overlap);
      var rest := WindowStarts(len, next, maxChars, overlap);
      forall k | 0 <= k < |ws|
        ensures start <= ws[k] < len
      {
        if k > 0 {
          assert ws[k] == rest[k - 1];
        }
      }
    }
  }

  /** Consecutive window starts are `NextStart` apart, and the loop stops
      exactly when the next start would reach the end of the page. */
  lemma {:induction false} StartsStep(len: nat, start: nat, maxChars: int, overlap: int)
    requires Advances(maxChars, overlap)
    ensures var ws := WindowStarts(len, start, maxChars, overlap);
      (forall k :: 0 <= k < |ws| - 1 ==> ws[k + 1] == NextStart(ws[k], maxChars, overlap))
      && (ws != [] ==> NextStart(ws[|ws| - 1], maxChars, overlap) >= len)
    decreases len - start
  {
    if start < len {
      var next := NextStart(start, maxChars, overlap);
      StartsStep(len, next, maxChars, overlap);
      var ws := WindowStarts(len, start, maxChars, overlap);
      assert ws[1..] == WindowStarts(len, next, maxChars, overlap);
      forall k | 0 <= k < |ws| - 1
        ensures ws[k + 1] == NextStart(ws[k], maxChars, overlap)
      {
        if k > 0 {
          assert ws[k] == ws[1..][k - 1] && ws[k + 1] == ws[1..][k];
        }
      }
    }
  }

  /** The window starting at `start` contains position `p`. */
  predicate Covers(start: nat, maxChars: int, p: nat) {
    start <= p < start + maxChars
  }

  /** With a non-negative overlap the windows leave no gap: every position of
      the page lies inside some window. */
  lemma {:induction false} WindowsCover(len: nat, start: nat, maxChars: int, overlap: int, p: nat)
    requires maxChars > 0 && overlap >= 0
    requires start <= p < len
    ensures exists k :: 0 <= k < |WindowStarts(len, start, maxChars, overlap)| && Covers(WindowStarts(len, start, maxChars, overlap)[k], maxChars, p)
    decreases len - start
  {
    var ws := WindowStarts(len, start, maxChars, overlap);
    var next := NextStart(start, maxChars, overlap);
    if p < start + maxChars {
      assert Covers(ws[0], maxChars, p);
    } else {
      WindowsCover(len, next, maxChars, overlap, p);
      var rest := WindowStarts(len, next, maxChars, overlap);
      var k :| 0 <= k < |rest| && Covers(rest[k], maxChars, p);
      assert ws[k + 1] == rest[k];
      assert 0 <= k + 1 < |ws| && Covers(ws[k + 1], maxChars, p);
    }
  }

  /** The trailing window `chunk_text` does not need: when `0 < overlap <
      max_chars` and a window already reaches the end of the page while
      starting less than `max_chars - overlap` before it, the loop still opens
      one more window, and that window's text is a suffix of the previous
      one's. */
  lemma RedundantLastWindow(page: string, maxChars: int, overlap: int, k: nat)
    requires 0 < overlap < maxChars
    requires var ws := WindowStarts(|page|, 0, maxChars, overlap);
      k < |ws| && ws[k] + maxChars - overlap < |page| <= ws[k] + maxChars
    ensures var ws := WindowStarts(|page|, 0, maxChars, overlap);
      k + 1 < |ws| && ws[k + 1] == ws[k] + maxChars - overlap
      && Window(page, ws[k + 1], maxChars) == Window(page, ws[k], maxChars)[maxChars - overlap..]
      && Window(page, ws[k + 1], maxChars) != []
  {
    var ws := WindowStarts(|page|, 0, maxChars, overlap);
    StartsStep(|page|, 0, maxChars, overlap);
    StartsBounds(|page|, 0, maxChars, overlap);
    assert k + 1 < |ws|;
  }

  /** The defaults on a 2800-character page: windows at 0, 1300 and 2600, the
      last one lying entirely inside the second. */
  lemma DefaultStarts()
    ensures WindowStarts(2800, 0, DEFAULT_MAX_CHARS, DEFAULT_OVERLAP) == [0, 1300, 2600]
  {
    var ws := WindowStarts(2800, 0, 1500, 200);
    assert WindowStarts(2800, 2600, 1500, 200) == [2600] + WindowStarts(2800, 4100, 1500, 200);
    assert WindowStarts(2800, 1300, 1500, 200) == [1300] + WindowStarts(2800, 2600, 1500, 200);
  }

  // ----- sentence packing (chunk_text_smart) --------------------------------

  /** `page_text.replace('\n', ' ').split('. ')`. */
  function Sentences(page: string): (ss: seq<string>)
    ensures |ss| >= 1
  {
    SplitOn(ReplaceChar(page, '\n', ' '), ". ")
  }

  /** A sentence stripped, with a full stop added when it is non-empty and
      does not already end in one. */
  function Punctuate(sentence: string): (r: string)
    ensures r == [] <==> Strip(sentence) == []
    ensures r != [] ==> EndsWith(r, '.') && IsStripped(r)
  {
    var t := Strip(sentence);
    if t != [] && !EndsWith(t, '.') then t + "." else t
  }

  /** The text carried from a finished chunk into the next one:
      `current[-overlap:] if len(current) > overlap else current`. */
  function CarryOver(current: string, overlap: int): (r: string)
    ensures |r| <= |current| && r == current[|current| - |r|..]
    ensures overlap == 0 ==> r == current
    ensures overlap > 0 ==> |r| == Min(overlap, |current|)
    ensures overlap < 0 ==> |r| == Max(0, |current| + overlap)
  {
    if |current| > overlap then SliceFrom(current, -overlap) else current
  }

  /** The state of the sentence loop: the chunk under construction and the
      texts already saved. */
  datatype Packing = Packing(current: string, done: seq<string>)

  /** One turn of the sentence loop with the punctuated sentence `s`: if it
      does not fit after `current`, save `current` and restart from its tail;
      otherwise append it. */
  function Pack(st: Packing, s: string, maxChars: int, overlap: int): (r: Packing)
    ensures |r.done| <= |st.done| + 1
  {
    if |st.current| + |s| + 1 > maxChars && st.current != [] then
      Packing(CarryOver(st.current, overlap) + " " + s, st.done + [Strip(st.current)])
    else
      Packing(st.current + (if st.current != [] then " " + s else s), st.done)
  }

  /** The stripped text of the chunk under construction, if it is not blank:
      what is saved when the page ends. */
  function Flush(current: string): (ts: seq<string>)
    ensures |ts| <= 1
    ensures forall i :: 0 <= i < |ts| ==> ts[i] != [] && IsStripped(ts[i])
  {
    if Strip(current) != [] then [Strip(current)] else []
  }

  /** The sentence loop from sentence `i` on, with the final flush. */
  function SmartLoop(sentences: seq<string>, i: nat, st: Packing, maxChars: int, overlap: int): seq<string>
    requires i <= |sentences|
    decreases |sentences| - i
  {
    if i == |sentences| then st.done + Flush(st.current)
    else SmartLoop(sentences, i + 1, Pack(st, Punctuate(sentences[i]), maxChars, overlap), maxChars, overlap)
  }

  /** The texts `chunk_text_smart` cuts from a page longer than `max_chars`. */
  function SmartTexts(page: string, maxChars: int, overlap: int): seq<string> {
    SmartLoop(Sentences(page), 0, Packing("", []), maxChars, overlap)
  }

  /** Every text is stripped. */
  predicate AllStripped(texts: seq<string>) {
    forall i :: 0 <= i < |texts| ==> IsStripped(texts[i])
  }

  /** The sentence loop only ever saves stripped texts. */
  lemma {:induction false} SmartLoopStripped(sentences: seq<string>, i: nat, st: Packing, maxChars: int, overlap: int)
    requires i <= |sentences| && AllStripped(st.done)
    ensures AllStripped(SmartLoop(sentences, i, st, maxChars, overlap))
    decreases |sentences| - i
  {
    if i < |sentences| {
      var next := Pack(st, Punctuate(sentences[i]), maxChars, overlap);
      assert AllStripped(next.done);
      SmartLoopStripped(sentences, i + 1, next, maxChars, overlap);
    }
  }

  /** A sentence longer than `max_chars` is never cut: a page that is one
      sentence (no full stop, no line break) longer than the limit becomes a
      single chunk, the whole sentence with a full stop added. */
  lemma LongSentenceKeptWhole(page: string, maxChars: int, overlap: int)
    requires page != [] && IsStripped(page) && |page| > maxChars
    requires '.' !in page && '\n' !in page
    ensures PageTexts(Smart, page, maxChars, overlap) == [page + "."]
  {
    StripStripped(page);
    assert ReplaceChar(page, '\n', ' ') == page;
    SplitWithoutSeparator(page, ". ");
    assert Sentences(page) == [page];
    PunctuatePlain(page);
    var st := Packing(page + ".", []);
    assert Pack(Packing("", []), page + ".", maxChars, overlap) == st;
    assert IsStripped(page + ".");
    StripStripped(page + ".");
    assert SmartLoop([page], 1, st, maxChars, overlap) == [page + "."];
  }

  /** The packing step saves `current.strip()` without checking that it is
      non-blank, so a saved chunk can be empty: with sentences `a`, ``, ``,
      `z`, a limit of `len(a) + 2` and an overlap of 1, the carried-over tail
      is a lone space and the second chunk saved is the empty string. */
  lemma EmptyChunkSaved(a: string, z: string, maxChars: int)
    requires a != [] && z != [] && IsStripped(a) && IsStripped(z)
    requires !EndsWith(a, '.') && !EndsWith(z, '.')
    requires maxChars == |a| + 2 && |a| < |z| + 2
    ensures SmartLoop([a, "", "", z], 0, Packing("", []), maxChars, 1) == [a + ".", "", z + "."]
  {
    var ss := [a, "", "", z];
    EmptyChunkHead(ss, a, maxChars);
    EmptyChunkTail(ss, a + ".", z, maxChars);
  }

  /** The first two turns of `EmptyChunkSaved`: `a.` and then a space. */
  lemma EmptyChunkHead(ss: seq<string>, a: string, maxChars: int)
    requires |ss| == 4 && ss[0] == a && ss[1] == ""
    requires a != [] && IsStripped(a) && !EndsWith(a, '.') && maxChars == |a| + 2
    ensures SmartLoop(ss, 0, Packing("", []), maxChars, 1) == SmartLoop(ss, 2, Packing(a + "." + " ", []), maxChars, 1)
  {
    var x := a + ".";
    PunctuatePlain(a);
    PunctuateEmpty();
    SmartLoopStep(ss, 0, a, Packing("", []), x, Packing(x, []), maxChars, 1);
    assert Pack(Packing(x, []), "", maxChars, 1) == Packing(x + " ", []) by {
      assert x + (" " + "") == x + " ";
    }
    SmartLoopStep(ss, 1, "", Packing(x, []), "", Packing(x + " ", []), maxChars, 1);
  }

  /** The last two turns and the flush of `EmptyChunkSaved`. */
  lemma EmptyChunkTail(ss: seq<string>, x: string, z: string, maxChars: int)
    requires |ss| == 4 && ss[2] == "" && ss[3] == z
    requires x != [] && IsStripped(x) && maxChars == |x| + 1
    requires z != [] && IsStripped(z) && !EndsWith(z, '.') && |z| + 4 > maxChars
    ensures SmartLoop(ss, 2, Packing(x + " ", []), maxChars, 1) == [x, "", z + "."]
  {
    PunctuatePlain(z);
    PunctuateEmpty();
    PackSavesBlank(x, maxChars);
    SmartLoopStep(ss, 2, "", Packing(x + " ", []), "", Packing("  ", [x]), maxChars, 1);
    PackSavesEmpty(z + ".", [x], maxChars);
    SmartLoopStep(ss, 3, z, Packing("  ", [x]), z + ".", Packing("  " + (z + "."), [x, ""]), maxChars, 1);
    PackFlush(ss, "  ", z, [x, ""], maxChars, 1);
  }

  /** An empty sentence stays empty. */
  lemma PunctuateEmpty()
    ensures Punctuate("") == ""
  {
    StripStripped("");
  }

  /** The third turn of `EmptyChunkSaved`: `x + " "` is saved as `x` and only
      its trailing space is carried over. */
  lemma PackSavesBlank(x: string, maxChars: int)
    requires x != [] && IsStripped(x) && maxChars == |x| + 1
    ensures Pack(Packing(x + " ", []), "", maxChars, 1) == Packing("  ", [x])
  {
    StripPadded("", x, " ");
    assert "" + x + " " == x + " ";
    assert CarryOver(x + " ", 1) == " ";
    assert " " + " " + "" == "  ";
  }

  /** The fourth turn of `EmptyChunkSaved`: the blank chunk `"  "` is saved as
      the empty string. */
  lemma PackSavesEmpty(s: string, done: seq<string>, maxChars: int)
    requires |s| + 3 > maxChars
    ensures Pack(Packing("  ", done), s, maxChars, 1) == Packing("  " + s, done + [""])
  {
    StripPadded("  ", "", "");
    assert "  " + "" + "" == "  ";
    assert CarryOver("  ", 1) == " ";
    assert " " + " " + s == "  " + s;
  }

  /** The end of the page in `EmptyChunkSaved`: the padded last chunk is
      saved stripped. */
  lemma PackFlush(ss: seq<string>, pad: string, z: string, done: seq<string>, maxChars: int, overlap: int)
    requires |ss| == 4 && IsBlank(pad) && z != [] && IsStripped(z)
    ensures SmartLoop(ss, 4, Packing(pad + (z + "."), done), maxChars, overlap) == done + [z + "."]
  {
    assert IsStripped(z + ".");
    StripPadded(pad, z + ".", "");
    assert pad + (z + ".") + "" == pad + (z + ".");
  }

  /** `current[-0:]` is all of `current`: with no overlap, once the first
      sentence fills a chunk, the next chunk starts with the whole previous
      one instead of its tail. */
  lemma ZeroOverlapRepeats(a: string, b: string, maxChars: int)
    requires a != [] && b != [] && IsStripped(a) && IsStripped(b)
    requires !EndsWith(a, '.') && !EndsWith(b, '.')
    requires |a| >= maxChars
    ensures SmartLoop([a, b], 0, Packing("", []), maxChars, 0) == [a + ".", a + "." + " " + (b + ".")]
  {
    var ss := [a, b];
    var x := a + ".";
    var y := x + " " + (b + ".");
    PunctuatePlain(a);
    PunctuatePlain(b);
    SmartLoopStep(ss, 0, a, Packing("", []), x, Packing(x, []), maxChars, 0);
    PackWhole(Packing(x, []), b + ".", maxChars);
    SmartLoopStep(ss, 1, b, Packing(x, []), b + ".", Packing(y, [x]), maxChars, 0);
    assert IsStripped(y);
    StripStripped(y);
  }

  /** One turn of the sentence loop. */
  lemma SmartLoopStep(sentences: seq<string>, i: nat, raw: string, st: Packing, s: string, next: Packing, maxChars: int, overlap: int)
    requires i < |sentences| && sentences[i] == raw
    requires Punctuate(raw) == s && Pack(st, s, maxChars, overlap) == next
    ensures SmartLoop(sentences, i, st, maxChars, overlap) == SmartLoop(sentences, i + 1, next, maxChars, overlap)
  {
  }

  /** A stripped sentence without a full stop gets one. */
  lemma PunctuatePlain(sentence: string)
    requires sentence != [] && IsStripped(sentence) && !EndsWith(sentence, '.')
    ensures Punctuate(sentence) == sentence + "."
  {
    StripStripped(sentence);
  }

  /** With no overlap a stripped chunk that does not fit is saved and then
      carried over whole. */
  lemma PackWhole(st: Packing, s: string, maxChars: int)
    requires IsStripped(st.current)
    ensures st.current != [] && |st.current| + |s| + 1 > maxChars ==>
      Pack(st, s, maxChars, 0) == Packing(st.current + " " + s, st.done + [st.current])
  {
    StripStripped(st.current);
  }

  // ----- whole documents ----------------------------------------------------

  /** The texts one page contributes: none when it is blank, its stripped text
      when it fits in `max_chars`, otherwise what the chosen chunker cuts. */
  function PageTexts(mode: Chunker, page: string, maxChars: int, overlap: int): (ts: seq<string>)
    requires mode == Fixed ==> FixedPageEnds(page, maxChars, overlap)
    ensures Strip(page) == [] ==> ts == []
    ensures Strip(page) != [] && |page| <= maxChars ==> ts == [Strip(page)]
  {
    if Strip(page) == [] then []
    else if |page| <= maxChars then [Strip(page)]
    else match mode
      case Fixed => WindowTexts(page, WindowStarts(|page|, 0, maxChars, overlap), maxChars)
      case Smart => SmartTexts(page, maxChars, overlap)
  }

  /** Records for `texts`, all on `page`, numbered from `first`. */
  function Emit(texts: seq<string>, page: nat, first: nat): (cs: seq<ChunkDraft>)
    ensures |cs| == |texts|
  {
    seq(|texts|, i requires 0 <= i < |texts| => ChunkDraft(texts[i], page, page, first + i))
  }

  /** `chunks.append(...)` followed by `chunk_index += 1`: the record for
      `t` goes after those already emitted from this page. */
  method AppendChunk(emitted: seq<ChunkDraft>, ghost texts: seq<string>, t: string, page: nat, first: nat)
    returns (emitted': seq<ChunkDraft>, ghost texts': seq<string>)
    requires emitted == Emit(texts, page, first)
    ensures emitted' == emitted + [ChunkDraft(t, page, page, first + |emitted|)]
    ensures texts' == texts + [t] && emitted' == Emit(texts', page, first)
  {
    emitted' := emitted + [ChunkDraft(t, page, page, first + |emitted|)];
    texts' := texts + [t];
  }

  /** What each page contributes, page by page. */
  function PageTextLists(mode: Chunker, pages: seq<string>, maxChars: int, overlap: int): (tss: seq<seq<string>>)
    requires mode == Fixed ==> FixedEnds(pages, maxChars, overlap)
    ensures |tss| == |pages|
  {
    seq(|pages|, p requires 0 <= p < |pages| => PageTexts(mode, pages[p], maxChars, overlap))
  }

  /** The records for the first `n` pages, given what each page contributes:
      page by page, numbered consecutively across pages. */
  function Layout(tss: seq<seq<string>>, n: nat): (cs: seq<ChunkDraft>)
    requires n <= |tss|
  {
    if n == 0 then []
    else
      var prev := Layout(tss, n - 1);
      prev + Emit(tss[n - 1], n - 1, |prev|)
  }

  /** The result of `chunk_text` (Fixed) or `chunk_text_smart` (Smart). */
  function ChunkPages(mode: Chunker, pages: seq<string>, maxChars: int, overlap: int): seq<ChunkDraft>
    requires mode == Fixed ==> FixedEnds(pages, maxChars, overlap)
  {
    Layout(PageTextLists(mode, pages, maxChars, overlap), |pages|)
  }

  /** The records of the first `n` pages depend on those pages only. */
  lemma {:induction false} LayoutPrefix(tss: seq<seq<string>>, uss: seq<seq<string>>, n: nat)
    requires n <= |tss| && n <= |uss| && tss[..n] == uss[..n]
    ensures Layout(tss, n) == Layout(uss, n)
  {
    if n > 0 {
      assert tss[..n - 1] == tss[..n][..n - 1] && uss[..n - 1] == uss[..n][..n - 1];
      LayoutPrefix(tss, uss, n - 1);
      assert tss[n - 1] == tss[..n][n - 1] && uss[n - 1] == uss[..n][n - 1];
    }
  }

  /** One more page extends the records of the pages before it by that
      page's own records, numbered on from them. */
  lemma NextPage(mode: Chunker, pages: seq<string>, n: nat, maxChars: int, overlap: int, prev: seq<ChunkDraft>, emitted: seq<ChunkDraft>)
    requires n < |pages|
    requires mode == Fixed ==> FixedEnds(pages[..n + 1], maxChars, overlap)
    requires mode == Fixed ==> FixedEnds(pages[..n], maxChars, overlap)
    requires prev == ChunkPages(mode, pages[..n], maxChars, overlap)
    requires mode == Fixed ==> FixedPageEnds(pages[n], maxChars, overlap)
    requires emitted == Emit(PageTexts(mode, pages[n], maxChars, overlap), n, |prev|)
    ensures prev + emitted == ChunkPages(mode, pages[..n + 1], maxChars, overlap)
  {
    var tss := PageTextLists(mode, pages[..n], maxChars, overlap);
    var uss := PageTextLists(mode, pages[..n + 1], maxChars, overlap);
    assert tss == uss[..n];
    LayoutPrefix(tss, uss, n);
    assert uss[n] == PageTexts(mode, pages[n], maxChars, overlap);
  }

  /** Chunk `i` is the `(i - first)`-th text of its page. */
  lemma EmitIndex(texts: seq<string>, page: nat, first: nat, i: nat)
    requires i < |texts|
    ensures Emit(texts, page, first)[i] == ChunkDraft(texts[i], page, page, first + i)
  {
  }

  /** The records are numbered `0, 1, 2, ...` in order, each lies on a single
      page among the first `n`, and their pages never decrease. */
  predicate Numbered(cs: seq<ChunkDraft>, n: nat) {
    (forall i :: 0 <= i < |cs| ==> cs[i].chunkIndex == i && cs[i].pageStart == cs[i].pageEnd < n)
    && (forall i, j :: 0 <= i < j < |cs| ==> cs[i].pageStart <= cs[j].pageStart)
  }

  /** The text of each record is one of the texts its own page contributes. */
  predicate FromPages(cs: seq<ChunkDraft>, tss: seq<seq<string>>) {
    forall i :: 0 <= i < |cs| ==> cs[i].pageStart < |tss| && cs[i].text in tss[cs[i].pageStart]
  }

  /** Appending one page's records keeps the numbering, and every text stays
      traceable to its page. */
  lemma {:induction false} LayoutAppend(prev: seq<ChunkDraft>, tss: seq<seq<string>>, p: nat)
    requires p < |tss|
    requires Numbered(prev, p) && FromPages(prev, tss)
    ensures Numbered(prev + Emit(tss[p], p, |prev|), p + 1)
    ensures FromPages(prev + Emit(tss[p], p, |prev|), tss)
  {
    var cs := prev + Emit(tss[p], p, |prev|);
    forall i | |prev| <= i < |cs|
      ensures cs[i] == ChunkDraft(tss[p][i - |prev|], p, p, i)
    {
      EmitIndex(tss[p], p, |prev|, i - |prev|);
    }
  }

  /** The records of the first `n` pages are `Numbered`, and the text of each
      is one of the texts its own page contributes. */
  lemma {:induction false} LayoutShape(tss: seq<seq<string>>, n: nat)
    requires n <= |tss|
    ensures Numbered(Layout(tss, n), n)
    ensures FromPages(Layout(tss, n), tss)
  {
    if n > 0 {
      LayoutShape(tss, n - 1);
      LayoutAppend(Layout(tss, n - 1), tss, n - 1);
    }
  }

  /** Every text `chunk_text` emits is non-empty and stripped, and at most
      `max_chars` long when `max_chars` is positive. */
  lemma FixedChunkTexts(pages: seq<string>, maxChars: int, overlap: int)
    requires FixedEnds(pages, maxChars, overlap)
    ensures forall i :: 0 <= i < |ChunkPages(Fixed, pages, maxChars, overlap)| ==>
      var t := ChunkPages(Fixed, pages, maxChars, overlap)[i].text;
      t != [] && IsStripped(t) && (maxChars > 0 ==> |t| <= maxChars)
  {
    var tss := PageTextLists(Fixed, pages, maxChars, overlap);
    var cs := ChunkPages(Fixed, pages, maxChars, overlap);
    LayoutShape(tss, |pages|);
    forall i | 0 <= i < |cs|
      ensures cs[i].text != [] && IsStripped(cs[i].text) && (maxChars > 0 ==> |cs[i].text| <= maxChars)
    {
      var p := cs[i].pageStart;
      PageTextsFixed(pages[p], maxChars, overlap);
      assert cs[i].text in tss[p];
    }
  }

  /** One page's texts under `chunk_text` have the window shape. */
  lemma PageTextsFixed(page: string, maxChars: int, overlap: int)
    requires FixedPageEnds(page, maxChars, overlap)
    ensures FixedShaped(PageTexts(Fixed, page, maxChars, overlap), maxChars)
  {
  }

  /** Windows of size zero are empty, so they contribute nothing. */
  lemma {:induction false} ZeroWidthTexts(page: string, ws: seq<nat>)
    ensures WindowTexts(page, ws, 0) == []
  {
    if ws != [] {
      ZeroWidthTexts(page, ws[1..]);
    }
  }

  /** With `max_chars == 0` and a negative overlap the window loop advances
      one character a turn over empty windows: every page is gone through
      and no chunk is made. */
  lemma ZeroWidthNoChunks(pages: seq<string>, overlap: int)
    requires overlap < 0
    ensures FixedEnds(pages, 0, overlap)
    ensures ChunkPages(Fixed, pages, 0, overlap) == []
  {
    var tss := PageTextLists(Fixed, pages, 0, overlap);
    forall p | 0 <= p < |pages|
      ensures tss[p] == []
    {
      if Strip(pages[p]) != [] && |pages[p]| > 0 {
        ZeroWidthTexts(pages[p], WindowStarts(|pages[p]|, 0, 0, overlap));
      }
    }
    LayoutEmpty(tss, |pages|);
  }

  /** Pages that contribute nothing give no records. */
  lemma {:induction false} LayoutEmpty(tss: seq<seq<string>>, n: nat)
    requires n <= |tss|
    requires forall p :: 0 <= p < |tss| ==> tss[p] == []
    ensures Layout(tss, n) == []
  {
    if n > 0 {
      LayoutEmpty(tss, n - 1);
    }
  }

  // ----- the two chunkers and the dispatch ----------------------------------

  /** `chunk_text`: fixed windows of `max_chars` characters that overlap by
      `overlap` characters.  Where the source's window loop would run forever
      the model stops with `WindowLoopStuck` naming the first such page. */
  method ChunkText(pages: seq<string>, maxChars: int, overlap: int) returns (r: Result<seq<ChunkDraft>, Stuck>)
    ensures r.Failure? <==> !FixedEnds(pages, maxChars, overlap)
    ensures r.Failure? ==> var p := r.error.page;
      && p < |pages| && !FixedPageEnds(pages[p], maxChars, overlap)
      && FixedEnds(pages[..p], maxChars, overlap)
    ensures r.Success? ==> r.value == ChunkPages(Fixed, pages, maxChars, overlap)
  {
    var chunks := [];
    var chunkIndex := 0;
    for pageNum := 0 to |pages|
      invariant FixedEnds(pages[..pageNum], maxChars, overlap)
      invariant chunks == ChunkPages(Fixed, pages[..pageNum], maxChars, overlap)
      invariant chunkIndex == |chunks|
    {
      var page := ChunkPageFixed(pages[pageNum], pageNum, chunkIndex, maxChars, overlap);
      if page.Failure? {
        return Failure(page.error);
      }
      assert FixedEnds(pages[..pageNum + 1], maxChars, overlap) by {
        assert pages[..pageNum + 1] == pages[..pageNum] + [pages[pageNum]];
      }
      NextPage(Fixed, pages, pageNum, maxChars, overlap, chunks, page.value);
      chunks := chunks + page.value;
      chunkIndex := chunkIndex + |page.value|;
    }
    assert pages[..|pages|] == pages;
    return Success(chunks);
  }

  /** The body of `chunk_text`'s page loop: the records one page adds,
      numbered from `chunkIndex`, or `WindowLoopStuck` where the window loop
      would not advance. */
  method ChunkPageFixed(pageText: string, pageNum: nat, chunkIndex: nat, maxChars: int, overlap: int)
    returns (r: Result<seq<ChunkDraft>, Stuck>)
    ensures r.Failure? <==> !FixedPageEnds(pageText, maxChars, overlap)
    ensures r.Failure? ==> r.error == WindowLoopStuck(pageNum)
    ensures r.Success? ==> r.value == Emit(PageTexts(Fixed, pageText, maxChars, overlap), pageNum, chunkIndex)
  {
    if Strip(pageText) == [] {
      return Success([]);
    }
    if |pageText| <= maxChars {
      return Success([ChunkDraft(Strip(pageText), pageNum, pageNum, chunkIndex)]);
    }
    if !Advances(maxChars, overlap) {
      // `start` is never ahead of where it was (`NextStart`), so
      // `start < len(page_text)` holds on every turn.
      return Failure(WindowLoopStuck(pageNum));
    }
    var emitted := WindowChunks(pageText, pageNum, chunkIndex, maxChars, overlap);
    WindowLoopTexts(pageText, 0, maxChars, overlap, []);
    assert [] + WindowTexts(pageText, WindowStarts(|pageText|, 0, maxChars, overlap), maxChars)
        == WindowTexts(pageText, WindowStarts(|pageText|, 0, maxChars, overlap), maxChars);
    return Success(emitted);
  }

  /** `chunk_text`'s window loop over one page longer than `max_chars`. */
  method WindowChunks(pageText: string, pageNum: nat, chunkIndex: nat, maxChars: int, overlap: int)
    returns (emitted: seq<ChunkDraft>)
    requires Advances(maxChars, overlap)
    ensures emitted == Emit(WindowLoop(pageText, 0, maxChars, overlap, []), pageNum, chunkIndex)
  {
    emitted := [];
    ghost var done: seq<string> := [];
    var start: nat := 0;
    while start < |pageText|
      invariant WindowLoop(pageText, start, maxChars, overlap, done) == WindowLoop(pageText, 0, maxChars, overlap, [])
      invariant emitted == Emit(done, pageNum, chunkIndex)
      decreases |pageText| - start
    {
      start, emitted, done := WindowStep(pageText, start, pageNum, chunkIndex, maxChars, overlap, emitted, done);
    }
  }

  /** One turn of the window loop: the window at `start` adds its stripped
      text when that is not empty, and the loop goes on from a later start. */
  method WindowStep(pageText: string, start: nat, pageNum: nat, chunkIndex: nat, maxChars: int, overlap: int,
                    emitted: seq<ChunkDraft>, ghost done: seq<string>)
    returns (next: nat, emitted': seq<ChunkDraft>, ghost done': seq<string>)
    requires Advances(maxChars, overlap) && start < |pageText|
    requires emitted == Emit(done, pageNum, chunkIndex)
    ensures start < next
    ensures WindowLoop(pageText, start, maxChars, overlap, done) == WindowLoop(pageText, next, maxChars, overlap, done')
    ensures emitted' == Emit(done', pageNum, chunkIndex)
  {
    var end := start + maxChars;
    var chunkText := Strip(Slice(pageText, start, end));
    assert chunkText == Strip(Window(pageText, start, maxChars));
    emitted', done' := emitted, done;
    if chunkText != [] {
      emitted', done' := AppendChunk(emitted, done, chunkText, pageNum, chunkIndex);
    }
    assert done' == done + WindowText(pageText, start, maxChars);
    // `start = end - overlap`, then `start = end` when the overlap is at
    // least the window size.
    var s := if overlap >= maxChars then end else end - overlap;
    assert s == NextStart(start, maxChars, overlap);
    next := s;
  }

  /** `chunk_text_smart`: packs the page's `'. '`-separated sentences
      greedily and starts each new chunk with the tail of the previous one. */
  method ChunkTextSmart(pages: seq<string>, maxChars: int, overlap: int) returns (chunks: seq<ChunkDraft>)
    ensures chunks == ChunkPages(Smart, pages, maxChars, overlap)
  {
    chunks := [];
    var chunkIndex := 0;
    for pageNum := 0 to |pages|
      invariant chunks == ChunkPages(Smart, pages[..pageNum], maxChars, overlap)
      invariant chunkIndex == |chunks|
    {
      var emitted := ChunkPageSmart(pages[pageNum], pageNum, chunkIndex, maxChars, overlap);
      NextPage(Smart, pages, pageNum, maxChars, overlap, chunks, emitted);
      chunks := chunks + emitted;
      chunkIndex := chunkIndex + |emitted|;
    }
    assert pages[..|pages|] == pages;
  }

  /** The body of `chunk_text_smart`'s page loop: the records one page adds,
      numbered from `chunkIndex`. */
  method ChunkPageSmart(pageText: string, pageNum: nat, chunkIndex: nat, maxChars: int, overlap: int)
    returns (emitted: seq<ChunkDraft>)
    ensures emitted == Emit(PageTexts(Smart, pageText, maxChars, overlap), pageNum, chunkIndex)
  {
    if Strip(pageText) == [] {
      return [];
    }
    if |pageText| <= maxChars {
      return [ChunkDraft(Strip(pageText), pageNum, pageNum, chunkIndex)];
    }
    emitted := SentenceChunks(pageText, pageNum, chunkIndex, maxChars, overlap);
  }

  /** `chunk_text_smart`'s sentence loop over one page longer than
      `max_chars`, with the final flush. */
  method SentenceChunks(pageText: string, pageNum: nat, chunkIndex: nat, maxChars: int, overlap: int)
    returns (emitted: seq<ChunkDraft>)
    ensures emitted == Emit(SmartTexts(pageText, maxChars, overlap), pageNum, chunkIndex)
  {
    var sentences := SplitOn(ReplaceChar(pageText, '\n', ' '), ". ");
    var currentChunk := "";
    emitted := [];
    ghost var done: seq<string> := [];
    for i := 0 to |sentences|
      invariant SmartLoop(sentences, i, Packing(currentChunk, done), maxChars, overlap)
             == SmartLoop(sentences, 0, Packing("", []), maxChars, overlap)
      invariant emitted == Emit(done, pageNum, chunkIndex)
    {
      var sentence := Strip(sentences[i]);
      if sentence != [] && !EndsWith(sentence, '.') {
        sentence := sentence + ".";
      }
      assert sentence == Punctuate(sentences[i]);
      currentChunk, emitted, done := PackSentence(currentChunk, sentence, pageNum, chunkIndex, maxChars, overlap, emitted, done);
    }
    if Strip(currentChunk) != [] {
      emitted, done := AppendChunk(emitted, done, Strip(currentChunk), pageNum, chunkIndex);
    } else {
      assert done + Flush(currentChunk) == done;
    }
  }

  /** One turn of the sentence loop: a sentence that does not fit saves the
      chunk under construction and restarts from its tail, otherwise it is
      appended to the chunk. */
  method PackSentence(currentChunk: string, sentence: string, pageNum: nat, chunkIndex: nat, maxChars: int, overlap: int,
                      emitted: seq<ChunkDraft>, ghost done: seq<string>)
    returns (current': string, emitted': seq<ChunkDraft>, ghost done': seq<string>)
    requires emitted == Emit(done, pageNum, chunkIndex)
    ensures Packing(current', done') == Pack(Packing(currentChunk, done), sentence, maxChars, overlap)
    ensures emitted' == Emit(done', pageNum, chunkIndex)
  {
    if |currentChunk| + |sentence| + 1 > maxChars && currentChunk != [] {
      emitted', done' := AppendChunk(emitted, done, Strip(currentChunk), pageNum, chunkIndex);
      var overlapText := CarryOver(currentChunk, overlap);
      current' := overlapText + " " + sentence;
    } else {
      current' := currentChunk + (if currentChunk != [] then " " + sentence else sentence);
      emitted', done' := emitted, done;
    }
  }

  /** `extract_and_chunk_pdf` after extraction: the page list goes to the
      smart chunker by default, to the fixed one otherwise. */
  method ExtractAndChunkPdf(pages: seq<string>, maxChars: int, overlap: int, useSmartChunking: bool)
    returns (r: Result<seq<ChunkDraft>, Stuck>)
    ensures r.Failure? <==> !useSmartChunking && !FixedEnds(pages, maxChars, overlap)
    ensures r.Success? ==> r.value == ChunkPages(if useSmartChunking then Smart else Fixed, pages, maxChars, overlap)
  {
    if useSmartChunking {
      var chunks := ChunkTextSmart(pages, maxChars, overlap);
      r := Success(chunks);
    } else {
      r := ChunkText(pages, maxChars, overlap);
    }
  }
}
