/** Preprocessed output enters the cache key without its `# 12 "file"` markers. */
module LineMarkers {
  import opened Bytes

  const HASH: byte := 35
  const SPACE: byte := 32
  const NEWLINE: byte := 10

  predicate IsDigit(b: byte) { 48 <= b <= 57 }

  /** A number sign, a space and a digit. */
  predicate Starts(text: seq<byte>) { |text| >= 3 && text[0] == HASH && text[1] == SPACE && IsDigit(text[2]) }

  function SkipLine(text: seq<byte>): (r: seq<byte>)
    ensures |r| <= |text|
    ensures r == [] || r[0] == NEWLINE
    ensures text != [] && text[0] != NEWLINE ==> |r| < |text|
  {
    if text == [] || text[0] == NEWLINE then text else SkipLine(text[1..])
  }

  /** What is hashed of a text without NULs. */
  function Strip(text: seq<byte>): (r: seq<byte>)
    ensures |r| <= |text|
    decreases |text|
  {
    if text == [] then []
    else if Starts(text) then Strip(SkipLine(text))
    else [text[0]] + Strip(text[1..])
  }

  /** Where the text ends: at the first NUL. */
  function End(data: seq<byte>): (n: nat)
    requires 0 in data
    ensures n < |data| && data[n] == 0 && 0 !in data[..n]
  {
    if data[0] == 0 then 0 else
    var n := End(data[1..]);
    assert data[..n + 1] == [data[0]] + data[1..][..n];
    n + 1
  }

  /** The inner loop: on to the newline or the NUL. */
  method LineEnd(data: seq<byte>, start: nat) returns (ch: nat)
    requires 0 in data && start < End(data)
    ensures start <= ch <= End(data) && data[..End(data)][ch..] == SkipLine(data[..End(data)][start..])
    ensures data[start] != NEWLINE ==> ch > start
  {
    ghost var text := data[..End(data)];
    ch := start;
    while data[ch] != 0 && data[ch] != NEWLINE
      invariant start <= ch <= |text| && SkipLine(text[ch..]) == SkipLine(text[start..])
      decreases |text| - ch
    {
      assert text[ch..][1..] == text[ch + 1..] && text[ch] == data[ch];
      ch := ch + 1;
    }
    assert SkipLine(text[ch..]) == text[ch..];
  }

  lemma {:induction false} FirstNul(output: seq<byte>, behind: seq<byte>)
    requires 0 in behind
    ensures 0 in output ==> End(output + behind) == End(output)
    ensures 0 !in output ==> End(output + behind) == |output| + End(behind)
  {
    if output == [] {
      assert output + behind == behind;
    } else {
      assert (output + behind)[1..] == output[1..] + behind;
      assert output == [output[0]] + output[1..];
      if output[0] != 0 { FirstNul(output[1..], behind); }
    }
  }

  /** The vector the output is collected in has no NUL of its own: the scan goes on into the memory behind it, up to the
      first NUL there, or stops early at one in the output. So the text it scans is the output exactly when that has
      no NUL and the next byte is one. */
  lemma ScansTheOutput(output: seq<byte>, behind: seq<byte>)
    requires 0 in behind
    ensures var text := (output + behind)[..End(output + behind)];
            && (text == output <==> 0 !in output && behind[0] == 0)
            && (0 in output ==> text == output[..End(output)])
            && (0 !in output ==> text == output + behind[..End(behind)])
  {
    var all := output + behind;
    FirstNul(output, behind);
    if 0 in output {
      assert all[..End(all)] == output[..End(output)];
    } else {
      assert all[..End(all)] == output + behind[..End(behind)];
      assert behind[0] == 0 <==> End(behind) == 0;
    }
  }

  /** With what has been hashed and what waits to be, the rest of the text completes the whole. */
  ghost predicate OnTheWay(text: seq<byte>, hashed: seq<byte>, last: nat, ch: nat) {
    last <= ch <= |text| && (hashed + text[last..ch]) + Strip(text[ch..]) == Strip(text)
  }

  lemma LiteralStep(text: seq<byte>, hashed: seq<byte>, last: nat, ch: nat)
    requires ch < |text| && !Starts(text[ch..]) && OnTheWay(text, hashed, last, ch)
    ensures OnTheWay(text, hashed, last, ch + 1)
  {
    var done, rest := hashed + text[last..ch], Strip(text[ch + 1..]);
    assert text[ch..][1..] == text[ch + 1..];
    assert Strip(text[ch..]) == [text[ch]] + rest;
    assert done + ([text[ch]] + rest) == (done + [text[ch]]) + rest;
    assert hashed + text[last..ch + 1] == done + [text[ch]];
  }

  lemma MarkerStep(text: seq<byte>, hashed: seq<byte>, last: nat, ch: nat, end: nat, waiting: seq<byte>)
    requires OnTheWay(text, hashed, last, ch) && Starts(text[ch..]) && waiting == text[last..ch]
    requires ch <= end <= |text| && text[end..] == SkipLine(text[ch..])
    ensures OnTheWay(text, if ch > last then hashed + waiting else hashed, end, end)
  {
    var done := hashed + waiting;
    assert done + text[end..end] == done;
    assert hashed + [] == hashed;
  }

  lemma Finish(text: seq<byte>, hashed: seq<byte>, last: nat, waiting: seq<byte>)
    requires OnTheWay(text, hashed, last, |text|) && waiting == text[last..|text|]
    ensures Strip(text) == if last < |text| then hashed + waiting else hashed
  {
    assert text[|text|..] == [] && hashed + waiting + [] == hashed + waiting && hashed + [] == hashed;
  }

  lemma SameSlice(data: seq<byte>, n: nat, i: nat, j: nat)
    requires i <= j <= n <= |data|
    ensures data[..n][i..j] == data[i..j]
  {}

  lemma Begin(text: seq<byte>)
    ensures OnTheWay(text, [], 0, 0)
  {
    assert text[0..] == text && [] + text[0..0] == [] && [] + Strip(text) == Strip(text);
  }

  lemma StartsHere(data: seq<byte>, ch: nat)
    requires 0 in data && ch < End(data)
    ensures Starts(data[..End(data)][ch..]) <==> data[ch] == HASH && data[ch + 1] == SPACE && IsDigit(data[ch + 2])
  {}

  /** The scan over memory, which a NUL ends; `hashed` is all that sha1Update was given, in order. */
  method HashText(data: seq<byte>) returns (hashed: seq<byte>)
    requires 0 in data
    ensures hashed == Strip(data[..End(data)])
  {
    hashed := [];
    ghost var text := data[..End(data)];
    var ch, last := 0, 0;
    Begin(text);
    while data[ch] != 0
      invariant OnTheWay(text, hashed, last, ch)
      decreases |text| - ch
    {
      StartsHere(data, ch);
      if data[ch] == HASH && data[ch + 1] == SPACE && IsDigit(data[ch + 2]) {
        var end := LineEnd(data, ch);
        SameSlice(data, |text|, last, ch);
        MarkerStep(text, hashed, last, ch, end, data[last..ch]);
        if ch > last { hashed := hashed + data[last..ch]; }
        ch := end;
        last := ch;
      } else {
        LiteralStep(text, hashed, last, ch);
        ch := ch + 1;
      }
    }
    SameSlice(data, |text|, last, ch);
    Finish(text, hashed, last, data[last..ch]);
    if last < ch { hashed := hashed + data[last..ch]; }
  }

  // ---- which positions are hashed

  /** Position i lies in a marker run: one starts at or before it with no newline up to and including i. */
  ghost predicate InMarker(text: seq<byte>, i: nat)
    requires i < |text|
  {
    exists j :: 0 <= j <= i && Starts(text[j..]) && NEWLINE !in text[j..i + 1]
  }

  ghost function Kept(text: seq<byte>, n: nat): seq<byte>
    requires n <= |text|
  {
    if n == 0 then [] else Kept(text, n - 1) + if InMarker(text, n - 1) then [] else [text[n - 1]]
  }

  /** A run: every position of it is in the marker that starts it. */
  lemma {:induction false} RunCovered(text: seq<byte>, i: nat, k: nat)
    requires i <= k <= |text| && Starts(text[i..]) && NEWLINE !in text[i..k]
    ensures Kept(text, k) == Kept(text, i)
  {
    if i < k {
      assert text[i..k] == text[i..k - 1] + [text[k - 1]];
      RunCovered(text, i, k - 1);
      assert InMarker(text, k - 1);
    }
  }

  /** No marker is open at i. */
  ghost predicate Closed(text: seq<byte>, i: nat)
    requires i <= |text|
  {
    i < |text| && text[i] != NEWLINE && !Starts(text[i..]) ==> !InMarker(text, i)
  }

  lemma SkipLineAt(text: seq<byte>, i: nat) returns (k: nat)
    requires i <= |text|
    ensures i <= k <= |text| && SkipLine(text[i..]) == text[k..] && NEWLINE !in text[i..k]
    ensures k < |text| ==> text[k] == NEWLINE
    decreases |text| - i
  {
    if i == |text| || text[i] == NEWLINE {
      k := i;
    } else {
      k := SkipLineAt(text, i + 1);
      assert text[i..][1..] == text[i + 1..];
      assert text[i..k] == [text[i]] + text[i + 1..k];
    }
  }

  /** From a position where no marker is open, the scan keeps exactly the positions outside every marker. */
  lemma {:induction false} StripFrom(text: seq<byte>, i: nat)
    requires i <= |text| && Closed(text, i)
    ensures Kept(text, i) + Strip(text[i..]) == Kept(text, |text|)
    decreases |text| - i
  {
    if i == |text| {
      assert text[i..] == [];
      assert Kept(text, i) + [] == Kept(text, i);
    } else if Starts(text[i..]) {
      var k := SkipLineAt(text, i);
      assert Strip(text[i..]) == Strip(text[k..]);
      RunCovered(text, i, k);
      StripFrom(text, k);
    } else {
      NotInMarker(text, i);
      NextClosed(text, i);
      StripFrom(text, i + 1);
      OneKept(text, i);
    }
  }

  lemma OneKept(text: seq<byte>, i: nat)
    requires i < |text| && !InMarker(text, i) && !Starts(text[i..])
    ensures Kept(text, i) + Strip(text[i..]) == Kept(text, i + 1) + Strip(text[i + 1..])
  {
    assert text[i..][1..] == text[i + 1..];
    assert Kept(text, i) + ([text[i]] + Strip(text[i + 1..])) == (Kept(text, i) + [text[i]]) + Strip(text[i + 1..]);
  }

  lemma SliceHas(text: seq<byte>, j: nat, i: nat)
    requires j <= i < |text|
    ensures text[i] in text[j..i + 1]
  {
    assert text[j..i + 1][i - j] == text[i];
  }

  lemma NotInMarker(text: seq<byte>, i: nat)
    requires i < |text| && Closed(text, i) && !Starts(text[i..])
    ensures !InMarker(text, i)
  {
    if text[i] == NEWLINE && InMarker(text, i) {
      var j :| 0 <= j <= i && Starts(text[j..]) && NEWLINE !in text[j..i + 1];
      SliceHas(text, j, i);
    }
  }

  lemma InMarkerBack(text: seq<byte>, i: nat)
    requires i + 1 < |text| && InMarker(text, i + 1) && !Starts(text[i + 1..])
    ensures InMarker(text, i)
  {
    var j :| 0 <= j <= i + 1 && Starts(text[j..]) && NEWLINE !in text[j..i + 2];
    assert text[j..i + 2] == text[j..i + 1] + [text[i + 1]];
  }

  lemma NextClosed(text: seq<byte>, i: nat)
    requires i < |text| && !InMarker(text, i)
    ensures Closed(text, i + 1)
  {
    if i + 1 < |text| && !Starts(text[i + 1..]) && InMarker(text, i + 1) { InMarkerBack(text, i); }
  }

  /** The bytes hashed are the text with every marker run, up to its newline, left out. */
  lemma StripIsKept(text: seq<byte>)
    ensures Strip(text) == Kept(text, |text|)
  {
    if |text| > 0 && InMarker(text, 0) { assert Starts(text[0..]); }
    StripFrom(text, 0);
    assert text[0..] == text;
    assert [] + Strip(text) == Strip(text);
  }

  // ---- two outputs that differ only inside a marker

  ghost predicate IsMarker(m: seq<byte>) { Starts(m) && NEWLINE !in m }

  /** Any two outputs that differ only in what one marker says feed the hash the same bytes. */
  lemma {:induction false} MarkerDoesNotMatter(a: seq<byte>, m: seq<byte>, n: seq<byte>, b: seq<byte>)
    requires IsMarker(m) && IsMarker(n) && (b == [] || b[0] == NEWLINE)
    ensures Strip(a + m + b) == Strip(a + n + b)
    decreases |a|
  {
    var s, t := a + m + b, a + n + b;
    if a == [] {
      assert s == m + b && t == n + b;
      SkipMarker(m, b);
      SkipMarker(n, b);
    } else {
      SameStart(a, m, n, b);
      if Starts(s) {
        SkipPrefix(a, m, n, b);
      } else {
        assert s[1..] == a[1..] + m + b && t[1..] == a[1..] + n + b;
        MarkerDoesNotMatter(a[1..], m, n, b);
      }
    }
  }

  lemma {:induction false} SkipMarker(m: seq<byte>, b: seq<byte>)
    requires NEWLINE !in m && (b == [] || b[0] == NEWLINE)
    ensures SkipLine(m + b) == b
  {
    if m == [] { assert m + b == b; } else {
      assert (m + b)[1..] == m[1..] + b;
      SkipMarker(m[1..], b);
    }
  }

  /** A marker never completes another one begun just before it. */
  lemma SameStart(a: seq<byte>, m: seq<byte>, n: seq<byte>, b: seq<byte>)
    requires a != [] && IsMarker(m) && IsMarker(n)
    ensures Starts(a + m + b) <==> Starts(a + n + b)
    ensures (a + m + b)[0] == a[0] == (a + n + b)[0]
  {
    assert (a + m + b)[|a|] == m[0] && (a + n + b)[|a|] == n[0];
  }

  lemma SkipPrefix(a: seq<byte>, m: seq<byte>, n: seq<byte>, b: seq<byte>)
    requires a != [] && IsMarker(m) && IsMarker(n) && (b == [] || b[0] == NEWLINE) && Starts(a + m + b)
             && Starts(a + n + b)
    ensures Strip(a + m + b) == Strip(a + n + b)
    decreases |a|, 0
  {
    if NEWLINE in a {
      var k := SkipLineAt(a, 0);
      assert a[0..] == a;
      assert a[0..k] + a[k..] == a && a[0..k] == a[..k];
      SkipInto(a, k, m + b);
      SkipInto(a, k, n + b);
      assert a + m + b == a + (m + b) && a + n + b == a + (n + b);
      assert a[k..] + (m + b) == a[k..] + m + b && a[k..] + (n + b) == a[k..] + n + b;
      assert (a + m + b)[0] == a[0];
      MarkerDoesNotMatter(a[k..], m, n, b);
    } else {
      SkipMarker(a + m, b);
      SkipMarker(a + n, b);
    }
  }

  lemma {:induction false} SkipInto(a: seq<byte>, k: nat, rest: seq<byte>)
    requires k < |a| && NEWLINE !in a[..k] && a[k] == NEWLINE
    ensures SkipLine(a + rest) == a[k..] + rest
  {
    assert a + rest == a[..k] + (a[k..] + rest);
    SkipMarker(a[..k], a[k..] + rest);
  }

  /** A marker and the code behind it, which starts with the newline that ends the marker. */
  datatype Piece = Piece(marker: seq<byte>, code: seq<byte>)

  function Text(first: seq<byte>, pieces: seq<Piece>): seq<byte>
    decreases |pieces|
  {
    if pieces == [] then first else first + pieces[0].marker + Text(pieces[0].code, pieces[1..])
  }

  /** A code without its newline only at the very end. */
  ghost predicate Marked(pieces: seq<Piece>) {
    pieces == []
    || (IsMarker(pieces[0].marker) && Marked(pieces[1..])
        && if pieces[0].code == [] then pieces[1..] == [] else pieces[0].code[0] == NEWLINE)
  }

  predicate SameCode(p: seq<Piece>, q: seq<Piece>) {
    |p| == |q| && (p == [] || (p[0].code == q[0].code && SameCode(p[1..], q[1..])))
  }

  lemma TextStart(code: seq<byte>, pieces: seq<Piece>)
    requires if code == [] then pieces == [] else code[0] == NEWLINE
    ensures Text(code, pieces) == [] || Text(code, pieces)[0] == NEWLINE
  {}

  lemma {:induction false} TextPrefix(a: seq<byte>, code: seq<byte>, pieces: seq<Piece>)
    ensures a + Text(code, pieces) == Text(a + code, pieces)
  {
    if pieces != [] {
      var marker, rest := pieces[0].marker, Text(pieces[0].code, pieces[1..]);
      assert a + (code + marker + rest) == (a + code) + marker + rest;
    }
  }

  /** Two outputs with the same code, however many markers stand in it and whatever they say, feed the hash the
      same bytes. */
  lemma {:induction false} MarkersDoNotMatter(first: seq<byte>, p: seq<Piece>, q: seq<Piece>)
    requires Marked(p) && Marked(q) && SameCode(p, q)
    ensures Strip(Text(first, p)) == Strip(Text(first, q))
    decreases |p|
  {
    if p != [] {
      var m, n, code := p[0].marker, q[0].marker, p[0].code;
      var s, t := Text(code, p[1..]), Text(code, q[1..]);
      TextStart(code, p[1..]);
      MarkerDoesNotMatter(first, m, n, s);
      TextPrefix(first + n, code, p[1..]);
      TextPrefix(first + n, code, q[1..]);
      MarkersDoNotMatter(first + n + code, p[1..], q[1..]);
    }
  }

  // ---- markers that are not on a line of their own

  /** The text without the markers that begin a line, which is where a preprocessor writes them. */
  function StripLines(text: seq<byte>, lineStart: bool): (r: seq<byte>)
    decreases |text|
  {
    if text == [] then []
    else if lineStart && Starts(text) then StripLines(SkipLine(text), false)
    else [text[0]] + StripLines(text[1..], text[0] == NEWLINE)
  }

  /** Every marker the scan meets begins a line. */
  predicate OnlyAtLineStarts(text: seq<byte>, lineStart: bool)
    decreases |text|
  {
    if text == [] then true
    else if Starts(text) then lineStart && OnlyAtLineStarts(SkipLine(text), false)
    else OnlyAtLineStarts(text[1..], text[0] == NEWLINE)
  }

  lemma {:induction false} StripSkipped(text: seq<byte>)
    ensures |Strip(SkipLine(text))| <= |Strip(text)|
    decreases |text|
  {
    if text != [] && text[0] != NEWLINE && !Starts(text) { StripSkipped(text[1..]); }
  }

  lemma {:induction false} StripsMore(text: seq<byte>, lineStart: bool)
    ensures |Strip(text)| <= |StripLines(text, lineStart)|
    decreases |text|
  {
    if text != [] {
      if lineStart && Starts(text) {
        StripsMore(SkipLine(text), false);
      } else {
        StripsMore(text[1..], text[0] == NEWLINE);
        if Starts(text) { StripSkipped(text[1..]); }
      }
    }
  }

  /** The scan looks for markers anywhere in a line, so it hashes the text minus its line markers exactly when none
      occurs inside a line, as one may in a string literal. */
  lemma {:induction false} LineMarkersOnlyIff(text: seq<byte>, lineStart: bool)
    ensures Strip(text) == StripLines(text, lineStart) <==> OnlyAtLineStarts(text, lineStart)
    decreases |text|
  {
    if text != [] {
      if !Starts(text) {
        LineMarkersOnlyIff(text[1..], text[0] == NEWLINE);
        assert Strip(text)[1..] == Strip(text[1..]);
        assert StripLines(text, lineStart)[1..] == StripLines(text[1..], text[0] == NEWLINE);
      } else if lineStart {
        LineMarkersOnlyIff(SkipLine(text), false);
      } else {
        StripsMore(text[1..], false);
        StripSkipped(text[1..]);
      }
    }
  }

  /** In bytes: a run starts with 35, 32 and one of 48 to 57, and goes on until the next 10. */
  lemma InMarkerIs(text: seq<byte>, i: nat)
    requires i < |text|
    ensures InMarker(text, i) <==>
            exists j: nat :: j <= i && BeginsAt(text, j) && forall k :: j <= k <= i ==> text[k] != 10
  {
    forall j: nat | j <= i
      ensures Starts(text[j..]) <==> BeginsAt(text, j)
      ensures NEWLINE !in text[j..i + 1] <==> forall k :: j <= k <= i ==> text[k] != 10
    {
      if forall k :: j <= k <= i ==> text[k] != 10 {
      } else {
        var k :| j <= k <= i && text[k] == 10;
        assert text[j..i + 1][k - j] == 10;
      }
      if NEWLINE in text[j..i + 1] {
        var k :| 0 <= k < i + 1 - j && text[j..i + 1][k] == 10;
        assert text[j + k] == 10;
      }
    }
  }

  ghost predicate BeginsAt(text: seq<byte>, j: nat) {
    j + 2 < |text| && text[j] == 35 && text[j + 1] == 32 && 48 <= text[j + 2] <= 57
  }
}
