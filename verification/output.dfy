/**
 The write phase of the combiner (ToSingleFile.py, lines 103-116): each selected
 file becomes one block `# File: <relative path>\r\n`, its bytes, `\r\n`, and the
 output is the blocks in list order.
 */
module Output {
  import opened Seqs
  import opened Paths
  import opened Utf8
  import opened Combiner

  const CRLF: Bytes := [13, 10]

  /** The header line of a block, encoded as UTF-8. */
  function Header(rel: string): (r: Bytes)
    ensures |r| >= |rel| + 10
  {
    Encode("# File: " + rel + "\r\n")
  }

  /** The header is the ASCII bytes of `# File: `, the UTF-8 bytes of the
      relative path, then CRLF. */
  lemma HeaderLayout(rel: string)
    ensures Header(rel) == [35, 32, 70, 105, 108, 101, 58, 32] + Encode(rel) + CRLF
  {
    EncodeAppend("# File: " + rel, "\r\n");
    EncodeAppend("# File: ", rel);
    HeaderPrefixBytes();
    CrlfBytes();
  }

  lemma HeaderPrefixBytes()
    ensures Encode("# File: ") == [35, 32, 70, 105, 108, 101, 58, 32]
  {
    EncodeAscii("# File: ");
  }

  lemma CrlfBytes()
    ensures Encode("\r\n") == CRLF
  {
    EncodeAscii("\r\n");
  }

  /** One block: header, the file's exact bytes, a closing CRLF. */
  function Block(rel: string, content: Bytes): (r: Bytes)
    ensures |r| == |Header(rel)| + |content| + 2
    ensures r[..|Header(rel)|] == Header(rel)
    ensures r[|Header(rel)|..|Header(rel)| + |content|] == content
    ensures r[|r| - 2..] == CRLF
  {
    Header(rel) + content + CRLF
  }

  /** What one iteration of the loop works with: the file's path as listed, the
      relative path shown in its header, and its bytes. */
  datatype Item = Item(path: string, rel: string, content: Bytes)

  /** Paths accepted by `relpath`. */
  predicate PathsNonEmpty(files: seq<FileEntry>) {
    forall i :: 0 <= i < |files| ==> files[i].path != ""
  }

  /** The header path and bytes of each file, with the relative path computed by
      `get_relative_path(file, folder_path)`. */
  function ItemsOf(cwd: Path, folder: string, files: seq<FileEntry>): (r: seq<Item>)
    requires IsNormal(cwd) && PathsNonEmpty(files)
    ensures |r| == |files|
    ensures forall i :: 0 <= i < |files| ==>
      r[i] == Item(files[i].path, GetRelativePath(cwd, files[i].path, folder), files[i].content)
    decreases |files|
  {
    if files == [] then []
    else
      var first := Item(files[0].path, GetRelativePath(cwd, files[0].path, folder), files[0].content);
      [first] + ItemsOf(cwd, folder, files[1..])
  }

  /** Everything the loop appends, in order. */
  function Serialise(items: seq<Item>): (r: Bytes)
    ensures |r| >= 12 * |items|
    ensures r == [] <==> items == []
    decreases |items|
  {
    if items == [] then [] else Block(items[0].rel, items[0].content) + Serialise(items[1..])
  }

  /** Appending per file is serialising the whole list: output of a concatenation
      is the concatenation of the outputs. */
  lemma {:induction false} SerialiseAppend(a: seq<Item>, b: seq<Item>)
    ensures Serialise(a + b) == Serialise(a) + Serialise(b)
    decreases |a|
  {
    if a == [] {
      assert a + b == b;
    } else {
      assert (a + b)[1..] == a[1..] + b;
      SerialiseAppend(a[1..], b);
    }
  }

  /** Where the `i`-th block starts: after the blocks of the items before it. */
  function Offset(items: seq<Item>, i: nat): nat
    requires i <= |items|
  {
    |Serialise(items[..i])|
  }

  /** The output holds the `i`-th file's block at its offset, and the offsets
      advance by exactly one block per file: one header per file, in list order. */
  lemma BlockAt(items: seq<Item>, i: nat)
    requires i < |items|
    ensures Offset(items, i + 1) == Offset(items, i) + |Block(items[i].rel, items[i].content)|
    ensures Offset(items, i + 1) <= |Serialise(items)|
    ensures Serialise(items)[Offset(items, i)..Offset(items, i + 1)] == Block(items[i].rel, items[i].content)
  {
    assert items[..i + 1] == items[..i] + [items[i]];
    assert items == items[..i + 1] + items[i + 1..];
    SerialiseAppend(items[..i], [items[i]]);
    SerialiseAppend(items[..i + 1], items[i + 1..]);
    assert Serialise([items[i]]) == Block(items[i].rel, items[i].content) + [];
  }

  /** What the output holds after `k` files were written: a prefix of the full
      output (the partial file a failure leaves behind). */
  lemma PartialIsPrefix(items: seq<Item>, k: nat)
    requires k <= |items|
    ensures Serialise(items[..k]) <= Serialise(items)
  {
    assert items == items[..k] + items[k..];
    SerialiseAppend(items[..k], items[k..]);
  }

  /** Bytes of the files' contents. */
  function ContentSize(items: seq<Item>): nat
    decreases |items|
  {
    if items == [] then 0 else |items[0].content| + ContentSize(items[1..])
  }

  /** Bytes of the encoded header lines. */
  function HeaderSize(items: seq<Item>): nat
    decreases |items|
  {
    if items == [] then 0 else |Header(items[0].rel)| + HeaderSize(items[1..])
  }

  /** Total size of the output: the headers, the file bytes and two bytes of CRLF
      per file. */
  lemma {:induction false} SerialiseLength(items: seq<Item>)
    ensures |Serialise(items)| == HeaderSize(items) + ContentSize(items) + 2 * |items|
    decreases |items|
  {
    if items != [] {
      SerialiseLength(items[1..]);
    }
  }

  // ---------------------------------------------------------------------------
  // The loop itself, with the possibility that a file's turn raises.

  /** Index of the first file whose path is in `failing` (`|items|` if none):
      where the loop raises before appending that file's block, because its
      header cannot be encoded or its `open(file, 'rb')` raises. */
  function FirstFailure(items: seq<Item>, failing: set<string>): (k: nat)
    ensures k <= |items|
    ensures forall i :: 0 <= i < k ==> items[i].path !in failing
    ensures k < |items| ==> items[k].path in failing
    decreases |items|
  {
    if items == [] then 0
    else if items[0].path in failing then 0
    else 1 + FirstFailure(items[1..], failing)
  }

  /** The first failing index is pinned down by the files before it and itself. */
  lemma {:induction false} FirstFailureIsFirst(items: seq<Item>, failing: set<string>, k: nat)
    requires k <= |items|
    requires forall i :: 0 <= i < k ==> items[i].path !in failing
    requires k < |items| ==> items[k].path in failing
    ensures FirstFailure(items, failing) == k
    decreases k
  {
    if k > 0 {
      FirstFailureIsFirst(items[1..], failing, k - 1);
    }
  }

  /** The append loop of lines 104-116 over the selected files, stopping at the
      first file whose turn raises: `written` counts the blocks appended, and
      the output holds exactly those blocks. */
  method WriteAll(items: seq<Item>, failing: set<string>) returns (out: Bytes, written: nat)
    ensures written == FirstFailure(items, failing)
    ensures out == Serialise(items[..written])
  {
    out := [];
    written := 0;
    while written < |items| && items[written].path !in failing
      invariant written <= |items|
      invariant forall i :: 0 <= i < written ==> items[i].path !in failing
      invariant out == Serialise(items[..written])
    {
      var header := Header(items[written].rel);
      var contentBytes := items[written].content + CRLF;
      SerialiseSnoc(items, written);
      out := out + (header + contentBytes);
      written := written + 1;
    }
    FirstFailureIsFirst(items, failing, written);
  }

  /** Appending one more file's header and bytes extends the output of the files
      before it to the output of one more file. */
  lemma SerialiseSnoc(items: seq<Item>, k: nat)
    requires k < |items|
    ensures Serialise(items[..k + 1]) == Serialise(items[..k]) + (Header(items[k].rel) + (items[k].content + CRLF))
  {
    assert items[..k + 1] == items[..k] + [items[k]];
    assert Serialise([items[k]]) == Block(items[k].rel, items[k].content) + [];
    SerialiseAppend(items[..k], [items[k]]);
  }
}
