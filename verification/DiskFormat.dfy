/** A cached object on disk: a four-byte header size, the response as JSON, then each file's stored contents.
    Writing it, reading it back piece by piece, and accepting it again after a restart. */
module DiskFormat {
  import opened Collections
  import opened Bytes
  import S = CacheStore

  /** What the builder answered: the key, and the stored and original size of each file. */
  datatype IndexEntry = IndexEntry(bytes: nat, uncompressedSize: nat)
  datatype Response = Response(sha1: string, index: seq<IndexEntry>)

  function ContentsSize(index: seq<IndexEntry>): nat {
    if index == [] then 0 else index[0].bytes + ContentsSize(index[1..])
  }

  function FileSize(index: seq<IndexEntry>, headerSize: nat): nat { 4 + headerSize + ContentsSize(index) }

  /** What the writer is given, in call order: header size, JSON, contents. */
  function Chunks(json: seq<byte>, contents: seq<seq<byte>>): seq<seq<byte>> { [U32LE(|json|), json] + contents }

  /** The index tells the truth about the contents. */
  ghost predicate Describes(index: seq<IndexEntry>, contents: seq<seq<byte>>) {
    |index| == |contents| && forall i :: 0 <= i < |index| ==> index[i].bytes == |contents[i]|
  }

  lemma {:induction false} ContentsLength(index: seq<IndexEntry>, contents: seq<seq<byte>>)
    requires Describes(index, contents)
    ensures |Flatten(contents)| == ContentsSize(index)
  {
    if index != [] { ContentsLength(index[1..], contents[1..]); }
  }

  lemma FileParts(json: seq<byte>, contents: seq<seq<byte>>)
    ensures Flatten(Chunks(json, contents)) == U32LE(|json|) + (json + Flatten(contents))
  {
    var chunks := Chunks(json, contents);
    assert chunks[1..] == [json] + contents && chunks[1..][1..] == contents;
  }

  /** The length on disk is what fileSize computes without looking. */
  lemma FileLength(index: seq<IndexEntry>, json: seq<byte>, contents: seq<seq<byte>>)
    requires Describes(index, contents)
    ensures |Flatten(Chunks(json, contents))| == FileSize(index, |json|)
  {
    FileParts(json, contents);
    ContentsLength(index, contents);
  }

  // ---- answering from the cache

  /** fs.read: as much of the range as the file has. */
  function ReadAt(file: seq<byte>, pos: nat, n: nat): (r: seq<byte>)
    ensures |r| <= n && |r| == (if pos >= |file| then 0 else if pos + n <= |file| then n else |file| - pos)
  {
    if pos >= |file| then [] else if pos + n <= |file| then file[pos..pos + n] else file[pos..]
  }

  /** What a client that does not take compressed replies is sent for a stored chunk. */
  function Unpack(gunzip: seq<byte> -> Option<seq<byte>>, sendCompressed: bool, b: seq<byte>): Option<seq<byte>> {
    if !sendCompressed && b != [] then gunzip(b) else Some(b)
  }

  /** One read and what is sent for it; nothing after a short read or a failed gunzip. */
  function ReadOne(file: seq<byte>, gunzip: seq<byte> -> Option<seq<byte>>, sendCompressed: bool, pos: nat,
      n: nat): Option<seq<byte>> {
    var b := ReadAt(file, pos, n);
    if |b| != n then None else Unpack(gunzip, sendCompressed, b)
  }

  datatype Reply = Reply(sent: seq<seq<byte>>, ok: bool)

  /** The chain of reads from entry k on: a short read or a failed gunzip ends it. */
  function Serve(file: seq<byte>, gunzip: seq<byte> -> Option<seq<byte>>, sendCompressed: bool, pos: nat,
      index: seq<IndexEntry>, k: nat): Reply
    requires k <= |index|
    decreases |index| - k
  {
    if k == |index| then Reply([], true)
    else
      match ReadOne(file, gunzip, sendCompressed, pos, index[k].bytes)
      case None => Reply([], false)
      case Some(out) =>
        var rest := Serve(file, gunzip, sendCompressed, pos + index[k].bytes, index, k + 1);
        Reply([out] + rest.sent, rest.ok)
  }

  lemma ServeStep(file: seq<byte>, gunzip: seq<byte> -> Option<seq<byte>>, sendCompressed: bool, pos: nat,
      index: seq<IndexEntry>, k: nat, out: seq<byte>, rest: Reply)
    requires k < |index| && ReadOne(file, gunzip, sendCompressed, pos, index[k].bytes) == Some(out)
    requires rest == Serve(file, gunzip, sendCompressed, pos + index[k].bytes, index, k + 1)
    ensures Serve(file, gunzip, sendCompressed, pos, index, k) == Reply([out] + rest.sent, rest.ok)
  {}

  lemma ReadFirst(file: seq<byte>, pos: nat, chunks: seq<seq<byte>>)
    requires chunks != [] && pos <= |file| && file[pos..] == Flatten(chunks)
    ensures ReadAt(file, pos, |chunks[0]|) == chunks[0]
    ensures pos + |chunks[0]| <= |file| && file[pos + |chunks[0]|..] == Flatten(chunks[1..])
  {
    var n := |chunks[0]|;
    assert file[pos..pos + n] == file[pos..][..n] == chunks[0];
    assert file[pos + n..] == file[pos..][n..];
  }

  lemma Unshift(chunks: seq<seq<byte>>, k: nat)
    requires k < |chunks|
    ensures chunks[k..] == [chunks[k]] + chunks[k + 1..] && chunks[k..][1..] == chunks[k + 1..]
  {}

  /** The reads meet the stored contents one by one. */
  lemma {:induction false} ServeFinds(file: seq<byte>, gunzip: seq<byte> -> Option<seq<byte>>, pos: nat,
      index: seq<IndexEntry>, k: nat, contents: seq<seq<byte>>)
    requires Describes(index, contents) && k <= |index| && pos <= |file| && file[pos..] == Flatten(contents[k..])
    ensures Serve(file, gunzip, true, pos, index, k) == Reply(contents[k..], true)
    decreases |index| - k
  {
    if k < |index| {
      Unshift(contents, k);
      ReadFirst(file, pos, contents[k..]);
      ServeFinds(file, gunzip, pos + index[k].bytes, index, k + 1, contents);
    }
  }

  /** For a client that takes compressed replies: the k-th message is the k-th stored content. */
  lemma CachedRoundTrip(gunzip: seq<byte> -> Option<seq<byte>>, index: seq<IndexEntry>, json: seq<byte>,
      contents: seq<seq<byte>>)
    requires Describes(index, contents)
    ensures Serve(Flatten(Chunks(json, contents)), gunzip, true, 4 + |json|, index, 0) == Reply(contents, true)
  {
    var file := Flatten(Chunks(json, contents));
    FileParts(json, contents);
    assert file[4 + |json|..] == Flatten(contents);
    assert contents[0..] == contents;
    ServeFinds(file, gunzip, 4 + |json|, index, 0, contents);
  }

  /** What a finished compile stores for its files: gzipped, except that an empty file stays empty. */
  function Stored(gzip: seq<byte> -> seq<byte>, originals: seq<seq<byte>>): seq<seq<byte>> {
    if originals == [] then []
    else [if originals[0] == [] then [] else gzip(originals[0])] + Stored(gzip, originals[1..])
  }

  function IndexOf(stored: seq<seq<byte>>, originals: seq<seq<byte>>): (r: seq<IndexEntry>)
    requires |stored| == |originals|
    ensures |r| == |originals|
    ensures forall i :: 0 <= i < |r| ==> r[i] == IndexEntry(|stored[i]|, |originals[i]|)
  {
    seq(|originals|, i requires 0 <= i < |originals| => IndexEntry(|stored[i]|, |originals[i]|))
  }

  lemma {:induction false} StoredEach(gzip: seq<byte> -> seq<byte>, originals: seq<seq<byte>>)
    ensures |Stored(gzip, originals)| == |originals|
    ensures forall k :: 0 <= k < |originals| ==>
              Stored(gzip, originals)[k] == if originals[k] == [] then [] else gzip(originals[k])
  {
    if originals != [] { StoredEach(gzip, originals[1..]); }
  }

  lemma {:induction false} ServeUnpacks(gzip: seq<byte> -> seq<byte>, gunzip: seq<byte> -> Option<seq<byte>>,
      file: seq<byte>, pos: nat, index: seq<IndexEntry>, k: nat, originals: seq<seq<byte>>)
    requires forall x: seq<byte> :: gunzip(gzip(x)) == Some(x) && gzip(x) != []
    requires Describes(index, Stored(gzip, originals)) && k <= |index| && pos <= |file|
             && file[pos..] == Flatten(Stored(gzip, originals)[k..])
    ensures |originals| == |index| && Serve(file, gunzip, false, pos, index, k) == Reply(originals[k..], true)
    decreases |index| - k
  {
    StoredEach(gzip, originals);
    if k < |index| {
      Unshift(Stored(gzip, originals), k);
      Unshift(originals, k);
      ReadFirst(file, pos, Stored(gzip, originals)[k..]);
      ServeUnpacks(gzip, gunzip, file, pos + index[k].bytes, index, k + 1, originals);
    }
  }

  /** Either kind of client gets every original file in order, and messages as long as the reply's index announced. */
  lemma EveryClientGetsItsFiles(gzip: seq<byte> -> seq<byte>, gunzip: seq<byte> -> Option<seq<byte>>, json: seq<byte>,
      originals: seq<seq<byte>>, sendCompressed: bool)
    requires forall x: seq<byte> :: gunzip(gzip(x)) == Some(x) && gzip(x) != []
    ensures |Stored(gzip, originals)| == |originals|
    ensures var stored := Stored(gzip, originals);
            var index := IndexOf(stored, originals);
            var reply := Serve(Flatten(Chunks(json, stored)), gunzip, sendCompressed, 4 + |json|, index, 0);
            && reply == Reply(if sendCompressed then stored else originals, true)
            && forall i :: 0 <= i < |index| ==>
                 |reply.sent[i]| == if sendCompressed then index[i].bytes else index[i].uncompressedSize
  {
    StoredEach(gzip, originals);
    var stored := Stored(gzip, originals);
    var index, file := IndexOf(stored, originals), Flatten(Chunks(json, stored));
    if sendCompressed {
      CachedRoundTrip(gunzip, index, json, stored);
    } else {
      FileParts(json, stored);
      assert file[4 + |json|..] == Flatten(stored);
      assert stored[0..] == stored && originals[0..] == originals;
      ServeUnpacks(gzip, gunzip, file, 4 + |json|, index, 0, originals);
    }
  }

  /** The stored bytes of entries k to i. */
  function Between(index: seq<IndexEntry>, k: nat, i: nat): nat
    requires k <= i <= |index|
    decreases i - k
  {
    if k == i then 0 else index[k].bytes + Between(index, k + 1, i)
  }

  lemma {:induction false} BetweenIsContents(index: seq<IndexEntry>, k: nat)
    requires k <= |index|
    ensures Between(index, k, |index|) == ContentsSize(index[k..])
    decreases |index| - k
  {
    if k < |index| {
      assert index[k..][1..] == index[k + 1..];
      BetweenIsContents(index, k + 1);
    }
  }

  /** The file reaches as far as entries k and up say. */
  predicate Reaches(file: seq<byte>, pos: nat, index: seq<IndexEntry>, k: nat)
    requires k <= |index|
  {
    var n := Between(index, k, |index|);
    n == 0 || pos + n <= |file|
  }

  /** An empty content, or one that gunzip takes. */
  predicate Unpacks(file: seq<byte>, gunzip: seq<byte> -> Option<seq<byte>>, pos: nat, n: nat) {
    n == 0 || gunzip(ReadAt(file, pos, n)).Some?
  }

  /** So are all that are kept from `pos` on. */
  predicate AllUnpack(file: seq<byte>, gunzip: seq<byte> -> Option<seq<byte>>, pos: nat, index: seq<IndexEntry>, k: nat)
    requires k <= |index|
    decreases |index| - k
  {
    k == |index|
    || (Unpacks(file, gunzip, pos, index[k].bytes) && AllUnpack(file, gunzip, pos + index[k].bytes, index, k + 1))
  }

  lemma ReachesStep(file: seq<byte>, pos: nat, index: seq<IndexEntry>, k: nat)
    requires k < |index|
    ensures var n := index[k].bytes;
            Reaches(file, pos, index, k) <==> (n == 0 || pos + n <= |file|) && Reaches(file, pos + n, index, k + 1)
  {}

  lemma ReadOneOk(file: seq<byte>, gunzip: seq<byte> -> Option<seq<byte>>, sendCompressed: bool, pos: nat, n: nat)
    ensures ReadOne(file, gunzip, sendCompressed, pos, n).Some? <==>
            (n == 0 || pos + n <= |file|) && (sendCompressed || Unpacks(file, gunzip, pos, n))
  {}

  lemma ServeOneOk(file: seq<byte>, gunzip: seq<byte> -> Option<seq<byte>>, sendCompressed: bool, pos: nat,
      index: seq<IndexEntry>, k: nat)
    requires k < |index|
    ensures Serve(file, gunzip, sendCompressed, pos, index, k).ok <==>
            ReadOne(file, gunzip, sendCompressed, pos, index[k].bytes).Some?
            && Serve(file, gunzip, sendCompressed, pos + index[k].bytes, index, k + 1).ok
  {}

  /** On any file at all, for either kind of client: the reads succeed exactly when the file reaches as far as the
      index says and, for a client that wants its files unpacked, everything that is not empty can be. */
  lemma {:induction false} ServeOkIff(file: seq<byte>, gunzip: seq<byte> -> Option<seq<byte>>, sendCompressed: bool,
      pos: nat, index: seq<IndexEntry>, k: nat)
    requires k <= |index|
    ensures Serve(file, gunzip, sendCompressed, pos, index, k).ok <==>
            Reaches(file, pos, index, k) && (sendCompressed || AllUnpack(file, gunzip, pos, index, k))
    decreases |index| - k
  {
    if k < |index| {
      var n := index[k].bytes;
      ServeOkIff(file, gunzip, sendCompressed, pos + n, index, k + 1);
      ServeOneOk(file, gunzip, sendCompressed, pos, index, k);
      ReadOneOk(file, gunzip, sendCompressed, pos, n);
      ReachesStep(file, pos, index, k);
    }
  }

  // ---- accepting a file found on disk

  /** readSync into an uninitialised buffer: what the file does not have stays junk. */
  function ReadInto(file: seq<byte>, pos: nat, n: nat, junk: nat -> byte): (r: seq<byte>)
    ensures |r| == n
    ensures pos + n <= |file| ==> r == file[pos..pos + n]
  {
    seq(n, i requires 0 <= i < n => if pos + i < |file| then file[pos + i] else junk(i))
  }

  datatype Item = Item(response: Response, headerSize: nat)

  function LoadFile(file: seq<byte>, name: string, fileSize: nat, parse: seq<byte> -> Option<Response>,
      junk: nat -> byte): Option<Item> {
    if |name| != 40 then None
    else
      var headerSize := ReadU32LE(ReadInto(file, 0, 4, junk));
      if headerSize < 10 || headerSize > 1024 * 16 then None
      else match parse(ReadInto(file, 4, headerSize, junk))
        case None => None
        case Some(response) =>
          if response.sha1 != name || FileSize(response.index, headerSize) != fileSize then None
          else Some(Item(response, headerSize))
  }

  /** A file the writer completed is accepted again exactly when its JSON is within the bounds the reader checks:
      a longer response is cached while the builder runs and thrown away when it restarts. */
  lemma ReloadIff(response: Response, json: seq<byte>, contents: seq<seq<byte>>, parse: seq<byte> -> Option<Response>,
      junk: nat -> byte)
    requires |response.sha1| == 40 && parse(json) == Some(response) && Describes(response.index, contents)
    requires |json| < TWO_TO_THE_32
    ensures var file := Flatten(Chunks(json, contents));
            LoadFile(file, response.sha1, |file|, parse, junk) ==
            if 10 <= |json| <= 16384 then Some(Item(response, |json|)) else None
  {
    var file := Flatten(Chunks(json, contents));
    FileParts(json, contents);
    FileLength(response.index, json, contents);
    ReadBack(|json|);
    assert file[0..4] == U32LE(|json|);
    assert file[4..4 + |json|] == json;
  }

  /** Whatever is accepted is complete: nothing was read past its end, and answering from it will not come up short. */
  lemma AcceptedIsComplete(file: seq<byte>, name: string, parse: seq<byte> -> Option<Response>, junk: nat -> byte,
      gunzip: seq<byte> -> Option<seq<byte>>)
    requires LoadFile(file, name, |file|, parse, junk).Some?
    ensures var item := LoadFile(file, name, |file|, parse, junk).value;
            && |file| == FileSize(item.response.index, item.headerSize) && item.response.sha1 == name
            && parse(file[4..4 + item.headerSize]) == Some(item.response)
            && Serve(file, gunzip, true, 4 + item.headerSize, item.response.index, 0).ok
  {
    var item := LoadFile(file, name, |file|, parse, junk).value;
    assert item.response.index[0..] == item.response.index;
    BetweenIsContents(item.response.index, 0);
    ServeOkIff(file, gunzip, true, 4 + item.headerSize, item.response.index, 0);
  }

  // ---- what the cache keeps of a file

  function BytesOf(index: seq<IndexEntry>): (r: seq<nat>)
    ensures |r| == |index|
  {
    if index == [] then [] else BytesOf(index[..|index| - 1]) + [index[|index| - 1].bytes]
  }

  lemma {:induction false} ContentsSizeSplit(index: seq<IndexEntry>)
    requires index != []
    ensures ContentsSize(index) == ContentsSize(index[..|index| - 1]) + index[|index| - 1].bytes
  {
    var n := |index| - 1;
    if n > 0 {
      ContentsSizeSplit(index[1..]);
      assert index[1..][..n - 1] == index[..n][1..] && index[1..][n - 1] == index[n];
    }
  }

  lemma {:induction false} SameContentsSize(index: seq<IndexEntry>)
    ensures S.ContentsSize(BytesOf(index)) == ContentsSize(index)
  {
    if index != [] {
      var n := |index| - 1;
      SameContentsSize(index[..n]);
      ContentsSizeSplit(index);
      assert BytesOf(index)[..n] == BytesOf(index[..n]);
    }
  }

  /** The file as the cache's own bookkeeping sees it; one without a usable response has no sha1. */
  function Seen(file: seq<byte>, parse: seq<byte> -> Option<Response>, junk: nat -> byte): S.DiskFile {
    var headerSize := ReadU32LE(ReadInto(file, 0, 4, junk));
    var nothing := S.DiskFile(headerSize, "", [], |file|);
    if headerSize < 10 || headerSize > 1024 * 16 then nothing
    else match parse(ReadInto(file, 4, headerSize, junk))
      case None => nothing
      case Some(response) => S.DiskFile(headerSize, response.sha1, BytesOf(response.index), |file|)
  }

  /** The bytes on disk are accepted exactly when the cache's bookkeeping says they can be loaded, and then both
      mean the same item. */
  lemma LoadableIff(file: seq<byte>, name: string, fileSize: nat, parse: seq<byte> -> Option<Response>,
      junk: nat -> byte)
    ensures LoadFile(file, name, fileSize, parse, junk).Some? <==> S.Loadable(name, Seen(file, parse, junk), fileSize)
    ensures var item, seen := LoadFile(file, name, fileSize, parse, junk), Seen(file, parse, junk);
            item.Some? ==>
              && seen.headerSize == item.value.headerSize && seen.bytes == BytesOf(item.value.response.index)
              && S.FileSize(S.Item(seen.headerSize, seen.bytes)) ==
                 FileSize(item.value.response.index, item.value.headerSize) == fileSize
  {
    var headerSize := ReadU32LE(ReadInto(file, 0, 4, junk));
    if 10 <= headerSize <= 1024 * 16 {
      match parse(ReadInto(file, 4, headerSize, junk))
      case None =>
      case Some(response) => SameContentsSize(response.index);
    }
  }
}
