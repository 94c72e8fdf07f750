/**
 * The offline indexing script: the sliding-window chunker `chunk_text` and
 * the loop of `main` that lays every file's chunks out in two parallel lists,
 * `all_chunks` (the texts) and `meta` (where each text came from).
 * Reading files (`read_text`), globbing, the embedding model and the FAISS
 * index are outside the model: each file arrives as a `Document` whose text
 * has already been read.
 */
module IndexDocs {
  import opened Wrappers
  import opened Strings

  /** `CHUNK_SIZE` and `CHUNK_OVERLAP`, the defaults `main` chunks with. */
  const ChunkSize: nat := 700
  const ChunkOverlap: int := 80

  /** One source file: `p.name` and `read_text(p)`. */
  datatype Document = Document(name: string, text: string)

  /** One entry of `meta`: `{"source": ..., "chunk_id": ...}`. */
  datatype ChunkMeta = ChunkMeta(source: string, chunkId: nat)

  /** The contents written to `meta.json`: `{"meta": ..., "chunks": ...}`. */
  datatype Store = Store(meta: seq<ChunkMeta>, chunks: seq<string>)

  // ---------------------------------------------------------------------
  // chunk_text
  // ---------------------------------------------------------------------

  /** `text[i:i+size]` for a start inside the text: at most `size` characters from `i`. */
  function Window(text: string, i: nat, size: nat): (w: string)
    requires i < |text|
    ensures |w| <= size && i + |w| <= |text|
    ensures w == text[i..i + |w|]
    ensures |w| == size || i + |w| == |text|
  {
    text[i..if i + size <= |text| then i + size else |text|]
  }

  /** The raw windows the loop of `chunk_text` appends, from start `i` on. */
  function WindowsFrom(text: string, size: nat, step: nat, i: nat): seq<string>
    requires step > 0
    decreases |text| - i
  {
    if i < |text| then [Window(text, i, size)] + WindowsFrom(text, size, step, i + step) else []
  }

  /** All raw windows of `chunk_text(text, size, overlap)`: starts 0, step, 2*step, ... */
  function Windows(text: string, size: nat, overlap: int): seq<string>
    requires overlap < size
  {
    WindowsFrom(text, size, size - overlap, 0)
  }

  /** What one raw window contributes to the result of `chunk_text`. */
  function CleanWindow(w: string): seq<string> {
    if Strip(w) == [] then [] else [Strip(w)]
  }

  /** `[c.strip() for c in raw if c.strip()]`. */
  function CleanWindows(raw: seq<string>): (r: seq<string>)
    ensures |r| <= |raw|
  {
    if raw == [] then [] else CleanWindow(raw[0]) + CleanWindows(raw[1..])
  }

  /** What `chunk_text(text, size, overlap)` returns: at most one chunk per character of the text. */
  function Chunks(text: string, size: nat, overlap: int): (r: seq<string>)
    requires overlap < size
    ensures |r| <= |Windows(text, size, overlap)| <= |text|
  {
    WindowsFromBound(text, size, size - overlap, 0);
    CleanWindows(Windows(text, size, overlap))
  }

  /** A run of windows from `i` has at most one window per remaining character. */
  lemma {:induction false} WindowsFromBound(text: string, size: nat, step: nat, i: nat)
    requires step > 0
    ensures i <= |text| ==> |WindowsFrom(text, size, step, i)| <= |text| - i
    decreases |text| - i
  {
    if i < |text| {
      WindowsFromBound(text, size, step, i + step);
    }
  }

  /**
   * `chunk_text`: slide a window of `size` characters over the text, advancing
   * by `size - overlap`, then strip each window and drop the blank ones.
   * The loop terminates because `overlap < size` makes every step positive.
   */
  method ChunkText(text: string, size: nat, overlap: int) returns (chunks: seq<string>)
    requires overlap < size
    ensures chunks == Chunks(text, size, overlap)
  {
    var windows: seq<string> := [];
    var i: nat := 0;
    while i < |text|
      invariant windows + WindowsFrom(text, size, size - overlap, i) == Windows(text, size, overlap)
      decreases |text| - i
    {
      var end := if i + size <= |text| then i + size else |text|;
      ghost var rest := WindowsFrom(text, size, size - overlap, i + (size - overlap));
      assert WindowsFrom(text, size, size - overlap, i) == [text[i..end]] + rest;
      assert windows + [text[i..end]] + rest == windows + ([text[i..end]] + rest);
      windows := windows + [text[i..end]];
      i := i + (size - overlap);
    }
    assert WindowsFrom(text, size, size - overlap, i) == [];
    assert windows + [] == windows;
    chunks := CleanWindows(windows);
  }

  /** Window k of `WindowsFrom(.., i)` starts at `i + k * step`, inside the text. */
  lemma {:induction false} WindowsFromStarts(text: string, size: nat, step: nat, i: nat, k: nat)
    requires step > 0 && k < |WindowsFrom(text, size, step, i)|
    ensures i + k * step < |text|
    ensures WindowsFrom(text, size, step, i)[k] == Window(text, i + k * step, size)
    decreases |text| - i
  {
    if k > 0 {
      WindowsFromStarts(text, size, step, i + step, k - 1);
      assert i + step + (k - 1) * step == i + k * step;
    }
  }

  /** The windows stop at the first start at or past the end of the text. */
  lemma {:induction false} WindowsFromCount(text: string, size: nat, step: nat, i: nat)
    requires step > 0
    ensures i + |WindowsFrom(text, size, step, i)| * step >= |text|
    decreases |text| - i
  {
    if i < |text| {
      var n := |WindowsFrom(text, size, step, i + step)|;
      WindowsFromCount(text, size, step, i + step);
      assert i + (n + 1) * step == i + step + n * step;
    }
  }

  /**
   * The raw windows are exactly `text[k*s : k*s+size]` for the starts
   * `k*s < len(text)`, `s = size - overlap`, and the next start is past the end.
   */
  lemma WindowStarts(text: string, size: nat, overlap: int)
    requires overlap < size
    ensures forall k :: 0 <= k < |Windows(text, size, overlap)| ==>
      k * (size - overlap) < |text| &&
      Windows(text, size, overlap)[k] == Window(text, k * (size - overlap), size)
    ensures |Windows(text, size, overlap)| * (size - overlap) >= |text|
  {
    var step := size - overlap;
    forall k | 0 <= k < |Windows(text, size, overlap)|
      ensures k * step < |text| && Windows(text, size, overlap)[k] == Window(text, k * step, size)
    {
      WindowsFromStarts(text, size, step, 0, k);
    }
    WindowsFromCount(text, size, step, 0);
  }

  /** Position `p` at or after start `i` lies in some window of `WindowsFrom(.., i)`. */
  lemma {:induction false} CoverageFrom(text: string, size: nat, step: nat, i: nat, p: nat) returns (k: nat)
    requires 0 < step <= size && i <= p < |text|
    ensures k < |WindowsFrom(text, size, step, i)|
    ensures var start := i + k * step;
      start <= p < start + |WindowsFrom(text, size, step, i)[k]| &&
      WindowsFrom(text, size, step, i)[k][p - start] == text[p]
    decreases |text| - i
  {
    var ws := WindowsFrom(text, size, step, i);
    if p < i + step {
      k := 0;
      assert ws[0] == Window(text, i, size);
    } else {
      var k' := CoverageFrom(text, size, step, i + step, p);
      k := k' + 1;
      assert ws[k] == WindowsFrom(text, size, step, i + step)[k'];
      assert i + step + k' * step == i + k * step;
    }
  }

  /**
   * Coverage: with `0 <= overlap < size` every character of the text lies in
   * some raw window; `k` is that window and `text[p]` sits at offset `p - k*s`.
   */
  lemma Coverage(text: string, size: nat, overlap: int, p: nat) returns (k: nat)
    requires 0 <= overlap < size && p < |text|
    ensures k < |Windows(text, size, overlap)|
    ensures var start := k * (size - overlap);
      start <= p < start + |Windows(text, size, overlap)[k]| &&
      Windows(text, size, overlap)[k][p - start] == text[p]
  {
    k := CoverageFrom(text, size, size - overlap, 0, p);
  }

  /** `[c.strip() for c in a + b if c.strip()]` splits at the seam: order is kept. */
  lemma {:induction false} CleanWindowsConcat(a: seq<string>, b: seq<string>)
    ensures CleanWindows(a + b) == CleanWindows(a) + CleanWindows(b)
  {
    if a == [] {
      assert a + b == b;
    } else {
      calc {
        CleanWindows(a + b);
        { assert (a + b)[0] == a[0] && (a + b)[1..] == a[1..] + b; }
        CleanWindow(a[0]) + CleanWindows(a[1..] + b);
        { CleanWindowsConcat(a[1..], b); }
        CleanWindow(a[0]) + (CleanWindows(a[1..]) + CleanWindows(b));
      }
    }
  }

  /** A chunk is exactly the stripped form of some non-blank raw window. */
  lemma {:induction false} CleanWindowsMembers(raw: seq<string>, c: string)
    ensures c in CleanWindows(raw) <==> exists w :: w in raw && Strip(w) == c && c != []
  {
    if raw != [] {
      var head := CleanWindow(raw[0]);
      CleanWindowsMembers(raw[1..], c);
      assert CleanWindows(raw) == head + CleanWindows(raw[1..]);
      assert c in CleanWindows(raw) <==> c in head || c in CleanWindows(raw[1..]);
      if c in CleanWindows(raw) {
        if c in head {
          assert raw[0] in raw;
        } else {
          var w :| w in raw[1..] && Strip(w) == c && c != [];
          assert w in raw;
        }
      }
      if exists w :: w in raw && Strip(w) == c && c != [] {
        var w :| w in raw && Strip(w) == c && c != [];
        if w != raw[0] {
          assert w in raw[1..];
        }
      }
    }
  }

  /** Every chunk is non-empty and has no whitespace at either end. */
  lemma {:induction false} CleanWindowsTrimmed(raw: seq<string>)
    ensures forall c :: c in CleanWindows(raw) ==> c != [] && Trimmed(c)
  {
    if raw != [] {
      CleanWindowsTrimmed(raw[1..]);
    }
  }

  /** No chunk is longer than the longest raw window. */
  lemma {:induction false} CleanWindowsBounded(raw: seq<string>, bound: nat)
    requires forall w :: w in raw ==> |w| <= bound
    ensures forall c :: c in CleanWindows(raw) ==> |c| <= bound
  {
    if raw != [] {
      CleanWindowsBounded(raw[1..], bound);
      assert raw[0] in raw;
    }
  }

  /**
   * Every chunk `chunk_text` returns is non-empty, has no leading or trailing
   * whitespace and is at most `size` characters long.
   */
  lemma ChunkShape(text: string, size: nat, overlap: int)
    requires overlap < size
    ensures forall c :: c in Chunks(text, size, overlap) ==> 0 < |c| <= size && Trimmed(c)
  {
    var ws := Windows(text, size, overlap);
    WindowStarts(text, size, overlap);
    forall w | w in ws ensures |w| <= size {
      var k :| 0 <= k < |ws| && ws[k] == w;
    }
    CleanWindowsBounded(ws, size);
    CleanWindowsTrimmed(ws);
  }

  /** The empty text has no chunks. */
  lemma EmptyTextHasNoChunks(size: nat, overlap: int)
    requires overlap < size
    ensures Chunks("", size, overlap) == []
  {
  }

  /**
   * A text no longer than one step has a single window, the whole text, so it
   * gives `[text.strip()]`, or nothing when it is blank.
   */
  lemma ShortTextOneChunk(text: string, size: nat, overlap: int)
    requires 0 <= overlap < size && |text| <= size - overlap
    ensures Chunks(text, size, overlap) == if AllSpace(text) then [] else [Strip(text)]
  {
    if text != [] {
      var step := size - overlap;
      assert WindowsFrom(text, size, step, step) == [];
      assert Window(text, 0, size) == text[0..|text|] == text;
      assert Windows(text, size, overlap) == [text];
      assert CleanWindows([text]) == CleanWindow(text) + CleanWindows([]);
      StripEmptyIffBlank(text);
    }
  }

  /** A non-blank text no longer than `size` gives `text.strip()` as its first chunk. */
  lemma FirstChunkOfShortText(text: string, size: nat, overlap: int)
    requires overlap < size && 0 < |text| <= size && !AllSpace(text)
    ensures |Chunks(text, size, overlap)| >= 1 && Chunks(text, size, overlap)[0] == Strip(text)
  {
    var ws := Windows(text, size, overlap);
    assert Window(text, 0, size) == text[0..|text|] == text;
    assert ws == [text] + ws[1..];
    CleanWindowsConcat([text], ws[1..]);
    assert CleanWindows([text]) == CleanWindow(text) + CleanWindows([]);
    StripEmptyIffBlank(text);
  }

  /**
   * A text no longer than `size` can still give several chunks: with size 3
   * and overlap 1, "abc" has windows at 0 and 2, and the second repeats the
   * tail of the first.
   */
  lemma ShortTextMayRepeatTail()
    ensures Chunks("abc", 3, 1) == ["abc", "c"]
  {
    var ws := Windows("abc", 3, 1);
    assert WindowsFrom("abc", 3, 2, 4) == [];
    assert Window("abc", 2, 3) == "abc"[2..3] == "c";
    assert WindowsFrom("abc", 3, 2, 2) == ["c"];
    assert Window("abc", 0, 3) == "abc"[0..3] == "abc";
    assert ws == ["abc", "c"];
    StripTrimmed("abc");
    StripTrimmed("c");
    CleanWindowsConcat(["abc"], ["c"]);
    assert CleanWindows(["abc"]) == CleanWindow("abc") + CleanWindows([]);
    assert CleanWindows(["c"]) == CleanWindow("c") + CleanWindows([]);
    assert ["abc"] + ["c"] == ws;
  }

  // ---------------------------------------------------------------------
  // main: meta / all_chunks
  // ---------------------------------------------------------------------

  /** The chunks of one file, with `main`'s default size and overlap. */
  function DocChunks(d: Document): seq<string> {
    Chunks(d.text, ChunkSize, ChunkOverlap)
  }

  /** A file's name together with the list `chunk_text` returned for it. */
  datatype FileChunks = FileChunks(name: string, chunks: seq<string>)

  /** Every file paired with its chunks, in the order the files are processed. */
  function Chunked(docs: seq<Document>): seq<FileChunks> {
    seq(|docs|, f requires 0 <= f < |docs| => FileChunks(docs[f].name, DocChunks(docs[f])))
  }

  /** The `meta` entries of one file: its name, and `chunk_id` counting from 0. */
  function FileMeta(file: FileChunks): seq<ChunkMeta> {
    seq(|file.chunks|, j requires 0 <= j < |file.chunks| => ChunkMeta(file.name, j))
  }

  /** `all_chunks` once the files have been processed, in order. */
  function AllChunks(files: seq<FileChunks>): seq<string> {
    if files == [] then [] else AllChunks(files[..|files| - 1]) + files[|files| - 1].chunks
  }

  /** `meta` once the files have been processed, in order. */
  function AllMeta(files: seq<FileChunks>): seq<ChunkMeta> {
    if files == [] then [] else AllMeta(files[..|files| - 1]) + FileMeta(files[|files| - 1])
  }

  /** The store `main` writes for the given files: one `meta` entry per chunk. */
  function StoreOf(docs: seq<Document>): (s: Store)
    ensures |s.meta| == |s.chunks|
  {
    StoreAligned(Chunked(docs));
    Store(AllMeta(Chunked(docs)), AllChunks(Chunked(docs)))
  }

  /**
   * `main` from the list of files on: no files gives no store; otherwise every
   * file is chunked and its chunks and their `meta` entries are appended in
   * lockstep, with `chunk_id` restarting at 0 for each file.
   */
  method BuildIndex(docs: seq<Document>) returns (store: Option<Store>)
    ensures store.None? <==> docs == []
    ensures store.Some? ==> store.value == StoreOf(docs)
  {
    if docs == [] {
      return None;
    }
    ghost var files := Chunked(docs);
    var allChunks: seq<string> := [];
    var meta: seq<ChunkMeta> := [];
    var f := 0;
    while f < |docs|
      invariant 0 <= f <= |docs|
      invariant allChunks == AllChunks(files[..f]) && meta == AllMeta(files[..f])
    {
      var d := docs[f];
      var chunks := ChunkText(d.text, ChunkSize, ChunkOverlap);
      assert files[f] == FileChunks(d.name, chunks);
      meta, allChunks := AppendFile(d.name, chunks, meta, allChunks);
      ProcessedOneMore(files, f);
      f := f + 1;
    }
    assert files[..f] == files;
    return Some(Store(meta, allChunks));
  }

  /**
   * The inner loop of `main`: `for idx, ch in enumerate(chunks)` appends
   * `{"source": name, "chunk_id": idx}` to `meta` and `ch` to `all_chunks`.
   */
  method AppendFile(name: string, chunks: seq<string>, meta: seq<ChunkMeta>, allChunks: seq<string>)
    returns (meta': seq<ChunkMeta>, allChunks': seq<string>)
    ensures allChunks' == allChunks + chunks
    ensures meta' == meta + FileMeta(FileChunks(name, chunks))
  {
    ghost var fm := FileMeta(FileChunks(name, chunks));
    meta', allChunks' := meta, allChunks;
    for idx := 0 to |chunks|
      invariant allChunks' == allChunks + chunks[..idx]
      invariant meta' == meta + fm[..idx]
    {
      meta' := meta' + [ChunkMeta(name, idx)];
      allChunks' := allChunks' + [chunks[idx]];
      assert chunks[..idx + 1] == chunks[..idx] + [chunks[idx]];
      assert fm[..idx + 1] == fm[..idx] + [ChunkMeta(name, idx)];
    }
    assert chunks[..|chunks|] == chunks && fm[..|chunks|] == fm;
  }

  /** Processing file `f` appends its chunks and its `meta` entries. */
  lemma ProcessedOneMore(files: seq<FileChunks>, f: nat)
    requires f < |files|
    ensures AllChunks(files[..f + 1]) == AllChunks(files[..f]) + files[f].chunks
    ensures AllMeta(files[..f + 1]) == AllMeta(files[..f]) + FileMeta(files[f])
  {
    assert files[..f + 1][..f] == files[..f];
  }

  /** `len(meta) == len(all_chunks)`: the two lists stay aligned. */
  lemma {:induction false} StoreAligned(files: seq<FileChunks>)
    ensures |AllMeta(files)| == |AllChunks(files)|
  {
    if files != [] {
      StoreAligned(files[..|files| - 1]);
    }
  }

  /**
   * Chunk `c` of file `f` sits at position `|AllChunks(files[..f])| + c` of
   * `all_chunks`, and the `meta` entry there names file `f` with `chunk_id == c`.
   */
  lemma {:induction false} ChunkPlacement(files: seq<FileChunks>, f: nat, c: nat)
    requires f < |files| && c < |files[f].chunks|
    ensures |AllMeta(files)| == |AllChunks(files)|
    ensures |AllChunks(files[..f])| + c < |AllChunks(files)|
    ensures AllChunks(files)[|AllChunks(files[..f])| + c] == files[f].chunks[c]
    ensures AllMeta(files)[|AllChunks(files[..f])| + c] == ChunkMeta(files[f].name, c)
    decreases |files|
  {
    var n := |files| - 1;
    var init := files[..n];
    StoreAligned(files);
    StoreAligned(init);
    StoreAligned(files[..f]);
    if f < n {
      assert init[f] == files[f] && init[..f] == files[..f];
      ChunkPlacement(init, f, c);
    } else {
      assert files[..f] == init;
    }
  }

  /**
   * Every position `j` of `all_chunks` comes from one file `f` and one chunk
   * `c` of it, and `meta[j]` is `{"source": name of f, "chunk_id": c}`.
   */
  lemma {:induction false} ChunkProvenance(files: seq<FileChunks>, j: nat) returns (f: nat, c: nat)
    requires j < |AllChunks(files)|
    ensures f < |files| && c < |files[f].chunks|
    ensures |AllMeta(files)| == |AllChunks(files)|
    ensures j == |AllChunks(files[..f])| + c
    ensures AllChunks(files)[j] == files[f].chunks[c]
    ensures AllMeta(files)[j] == ChunkMeta(files[f].name, c)
    decreases |files|
  {
    var n := |files| - 1;
    var init := files[..n];
    if j < |AllChunks(init)| {
      f, c := ChunkProvenance(init, j);
      assert init[f] == files[f] && init[..f] == files[..f];
    } else {
      f, c := n, j - |AllChunks(init)|;
      assert files[..f] == init;
    }
    ChunkPlacement(files, f, c);
  }

  /**
   * In the store built from `docs`, every chunk text is one of the chunks of
   * the file its `meta` entry names, at position `chunk_id`; the chunk is
   * non-blank, stripped and at most `CHUNK_SIZE` characters long.
   */
  lemma StoreEntryProvenance(docs: seq<Document>, j: nat) returns (f: nat)
    requires j < |StoreOf(docs).chunks|
    ensures j < |StoreOf(docs).meta|
    ensures f < |docs| && docs[f].name == StoreOf(docs).meta[j].source
    ensures StoreOf(docs).meta[j].chunkId < |DocChunks(docs[f])|
    ensures DocChunks(docs[f])[StoreOf(docs).meta[j].chunkId] == StoreOf(docs).chunks[j]
    ensures 0 < |StoreOf(docs).chunks[j]| <= ChunkSize && Trimmed(StoreOf(docs).chunks[j])
  {
    var files := Chunked(docs);
    var c;
    f, c := ChunkProvenance(files, j);
    assert files[f] == FileChunks(docs[f].name, DocChunks(docs[f]));
    ChunkShape(docs[f].text, ChunkSize, ChunkOverlap);
    assert DocChunks(docs[f])[c] in DocChunks(docs[f]);
  }
}
