// update_ctrl_interface (wifi/wifi.c): the in-place rewrite of the ctrl_interface= value of a
// supplicant configuration held in a buffer.
module CtrlInterface {

  const KEY: string := "ctrl_interface="
  const PROPERTY_VALUE_MAX: nat := 92

  predicate StartsAt(s: string, pat: string, i: int) {
    0 <= i && i + |pat| <= |s| && s[i..i + |pat|] == pat
  }

  // strstr: the first occurrence at or after `from`, or -1.
  function Search(s: string, pat: string, from: nat): (i: int)
    requires from <= |s|
    ensures i == -1 || (from <= i && StartsAt(s, pat, i))
    ensures forall k :: from <= k && (i == -1 || k < i) ==> !StartsAt(s, pat, k)
    decreases |s| - from
  {
    if StartsAt(s, pat, from) then from
    else if from == |s| then -1
    else Search(s, pat, from + 1)
  }

  // Characters up to the first newline, or to the end.
  function LineLength(s: string): (n: nat)
    ensures n <= |s| && (n < |s| ==> s[n] == '\n') && '\n' !in s[..n]
  {
    if s == [] || s[0] == '\n' then 0 else
      var n := LineLength(s[1..]);
      assert s[..n + 1] == [s[0]] + s[1..][..n];
      n + 1
  }

  // Where the value starts.
  function ValueAt(s: string): int { Search(s, KEY, 0) + |KEY| }

  // The value is rewritten only if there is one, it is not a directory in either form, and it
  // does not already begin with the interface name.
  predicate NeedsRewrite(s: string, ifc: string) {
    && Search(s, KEY, 0) != -1
    && Search(s, KEY + "DIR=", 0) == -1 && Search(s, KEY + "/", 0) == -1
    && !(ifc <= s[ValueAt(s)..])
  }

  predicate Terminated(s: string)
    requires Search(s, KEY, 0) != -1
  {
    '\n' in s[ValueAt(s)..]
  }

  function Newlines(n: nat): string { seq(n, _ => '\n') }

  function Max(a: nat, b: nat): nat { if a >= b then a else b }

  // The line at `at`, newline included, replaced by the value and enough newlines to cover it.
  function Splice(s: string, at: nat, ilen: nat, ifc: string): string
    requires at + ilen < |s|
  {
    s[..at] + ifc + Newlines(Max(ilen, |ifc|) + 1 - |ifc|) + s[at + ilen + 1..]
  }

  function Rewrite(s: string, ifc: string): string
    requires NeedsRewrite(s, ifc) ==> Terminated(s)
  {
    if !NeedsRewrite(s, ifc) then s
    else
      LineEnds(s[ValueAt(s)..]);
      Splice(s, ValueAt(s), LineLength(s[ValueAt(s)..]), ifc)
  }

  lemma LineEnds(s: string)
    ensures '\n' in s <==> LineLength(s) < |s|
  {
    var n := LineLength(s);
    assert s[..|s|] == s;
  }

  // The number of bytes memmove is asked to move; it is a valid count exactly when the line
  // is terminated. Otherwise it is -1, which memmove takes as a huge size.
  function MoveCount(s: string): int
    requires Search(s, KEY, 0) != -1
  {
    |s| - (ValueAt(s) + LineLength(s[ValueAt(s)..]) + 1)
  }

  lemma MoveCountIff(s: string)
    requires Search(s, KEY, 0) != -1
    ensures MoveCount(s) >= 0 <==> Terminated(s)
    ensures !Terminated(s) ==> MoveCount(s) == -1
  {
    LineEnds(s[ValueAt(s)..]);
  }

  // The result: same prefix, the new value, at least one newline, same tail. It is never
  // shorter than the original, and longer by at most the interface name.
  lemma RewriteShape(s: string, ifc: string)
    requires NeedsRewrite(s, ifc) && Terminated(s)
    ensures var at := ValueAt(s);
      var ilen := LineLength(s[at..]);
      var r := Rewrite(s, ifc);
      && 0 <= at && at + ilen < |s| && r == Splice(s, at, ilen, ifc)
      && s[..at] <= r && r[at..] == ifc + Newlines(Max(ilen, |ifc|) + 1 - |ifc|) + s[at + ilen + 1..]
      && |s| <= |r| <= |s| + |ifc|
  {
    hide Splice;
    LineEnds(s[ValueAt(s)..]);
    SpliceShape(s, ValueAt(s), LineLength(s[ValueAt(s)..]), ifc);
  }

  lemma SpliceShape(s: string, at: nat, ilen: nat, ifc: string)
    requires at + ilen < |s|
    ensures var r := Splice(s, at, ilen, ifc);
      && s[..at] <= r && r[at..] == ifc + Newlines(Max(ilen, |ifc|) + 1 - |ifc|) + s[at + ilen + 1..]
      && |s| <= |r| <= |s| + |ifc|
  {
    var tail := ifc + Newlines(Max(ilen, |ifc|) + 1 - |ifc|) + s[at + ilen + 1..];
    assert Splice(s, at, ilen, ifc) == s[..at] + tail;
  }

  // A second run changes nothing.
  lemma RewriteIdempotent(s: string, ifc: string)
    requires NeedsRewrite(s, ifc) ==> Terminated(s)
    ensures !NeedsRewrite(Rewrite(s, ifc), ifc)
  {
    if NeedsRewrite(s, ifc) {
      var at, r := ValueAt(s), Rewrite(s, ifc);
      RewriteShape(s, ifc);
      SameKey(s, r);
      assert r[at..][..|ifc|] == ifc;
    }
  }

  // A configuration whose value line is there to be rewritten: it is newline-terminated and
  // not a directory in either form.
  predicate Rewritable(s: string) {
    && Search(s, KEY, 0) != -1 && Terminated(s)
    && Search(s, KEY + "DIR=", 0) == -1 && Search(s, KEY + "/", 0) == -1
  }

  // The value: the rest of the line after the first key.
  function ValueLine(s: string): (line: string)
    requires Search(s, KEY, 0) != -1
  {
    s[ValueAt(s)..][..LineLength(s[ValueAt(s)..])]
  }

  // The rewrite sets the value if and only if the name could be a value at all and is not a
  // proper prefix of the old value: the comparison looks at no more than the name's length.
  lemma RewriteSetsValueIff(s: string, ifc: string)
    requires Rewritable(s)
    ensures var r := Rewrite(s, ifc);
      && Search(r, KEY, 0) != -1
      && (ValueLine(r) == ifc <==> '\n' !in ifc && !(ifc <= ValueLine(s) && ifc != ValueLine(s)))
  {
    var at, r := ValueAt(s), Rewrite(s, ifc);
    if NeedsRewrite(s, ifc) {
      RewriteShape(s, ifc);
      SameKey(s, r);
      NewLine(r[at..], ifc);
      PrefixOfLine(s[at..], ifc);
    } else {
      PrefixOfLine(s[at..], ifc);
    }
  }

  // A text that begins with a newline-free name and a newline has that name as its first line.
  lemma NewLine(text: string, ifc: string)
    requires ifc <= text && |ifc| < |text| && text[|ifc|] == '\n'
    ensures text[..LineLength(text)] == ifc <==> '\n' !in ifc
  {
    if '\n' !in ifc {
      assert text[..|ifc|] == ifc;
      LineLengthIs(text, |ifc|);
    }
  }

  lemma PrefixOfLine(text: string, ifc: string)
    ensures '\n' !in ifc ==> (ifc <= text <==> ifc <= text[..LineLength(text)])
    ensures '\n' in ifc ==> text[..LineLength(text)] != ifc
  {
    var n := LineLength(text);
    assert ifc <= text && n < |ifc| ==> ifc[n] == text[n];
  }

  // A longer value that begins with the name is left in place.
  lemma LongerValueStays()
    ensures var s := "ctrl_interface=wlan01\n";
      Rewritable(s) && Rewrite(s, "wlan0") == s && ValueLine(s) == "wlan01"
  {
    var s := "ctrl_interface=wlan01\n";
    assert StartsAt(s, KEY, 0);
    assert s[15..] == "wlan01\n";
    LineLengthIs("wlan01\n", 6);
    NoDirectory(s, KEY + "DIR=");
    NoDirectory(s, KEY + "/");
    assert "wlan01\n"[6] == '\n';
    assert "wlan0" <= "wlan01\n";
  }

  lemma NoDirectory(s: string, pat: string)
    requires s == "ctrl_interface=wlan01\n" && (pat == KEY + "DIR=" || pat == KEY + "/")
    ensures Search(s, pat, 0) == -1
  {
    assert pat[14] == '=' && pat[15] != 'w';
    assert forall k :: StartsAt(s, pat, k) ==> pat[14] == s[k..k + |pat|][14] == s[k + 14];
    assert forall k :: StartsAt(s, pat, k) ==> pat[15] == s[k..k + |pat|][15] == s[k + 15];
  }

  // Two texts that agree up to and including the first key have it in the same place.
  lemma SameKey(s: string, r: string)
    requires Search(s, KEY, 0) != -1 && s[..ValueAt(s)] <= r
    ensures Search(r, KEY, 0) == Search(s, KEY, 0)
  {
    var i, at := Search(s, KEY, 0), ValueAt(s);
    assert r[..at] == s[..at];
    assert r[i..at] == r[..at][i..] == s[..at][i..] == s[i..at];
    assert StartsAt(r, KEY, i);
    var j := Search(r, KEY, 0);
    assert 0 <= j <= i;
    assert s[j..j + |KEY|] == s[..at][j..j + |KEY|] == r[..at][j..j + |KEY|] == r[j..j + |KEY|];
    assert StartsAt(s, KEY, j);
  }

  // A text that holds the key in either directory form, or not at all, comes back unchanged.
  lemma DirectoryUnchanged(s: string, ifc: string)
    requires (exists i :: StartsAt(s, "ctrl_interface=DIR=", i)) || (exists i :: StartsAt(s, "ctrl_interface=/", i))
             || (forall i :: !StartsAt(s, "ctrl_interface=", i))
    ensures !NeedsRewrite(s, ifc) && Rewrite(s, ifc) == s
  {
    assert KEY + "DIR=" == "ctrl_interface=DIR=" && KEY + "/" == "ctrl_interface=/";
  }

  // The rewrite on the text itself: prefix, key, old value, newline and tail become prefix,
  // key, name, newlines and tail. The name and its newlines take up at least the old line.
  lemma RewriteText(s: string, pre: string, old': string, tail: string, ifc: string)
    requires s == pre + "ctrl_interface=" + old' + "\n" + tail && '\n' !in old'
    requires forall i :: 0 <= i < |pre| ==> !StartsAt(s, "ctrl_interface=", i)
    requires forall i :: !StartsAt(s, "ctrl_interface=DIR=", i) && !StartsAt(s, "ctrl_interface=/", i)
    requires '\n' !in ifc && !(ifc <= old')
    ensures NeedsRewrite(s, ifc) && Terminated(s)
    ensures var n := if |ifc| < |old'| then |old'| - |ifc| + 1 else 1;
            Rewrite(s, ifc) == pre + "ctrl_interface=" + ifc + seq(n, _ => '\n') + tail
  {
    hide Search, StartsAt, LineLength, Splice;
    var at := |pre| + |KEY|;
    KeyFound(s, pre, old' + "\n" + tail);
    NoneFound(s, KEY + "DIR=", "ctrl_interface=DIR=");
    NoneFound(s, KEY + "/", "ctrl_interface=/");
    ValueText(s, pre, old', tail);
    NotItsPrefix(old', tail, ifc);
    SpliceText(s, pre, old', tail, ifc);
  }

  lemma NoneFound(s: string, pat: string, text: string)
    requires pat == text && forall i :: !StartsAt(s, text, i)
    ensures Search(s, pat, 0) == -1
  {
    hide StartsAt;
  }

  lemma ValueText(s: string, pre: string, old': string, tail: string)
    requires s == pre + "ctrl_interface=" + old' + "\n" + tail && '\n' !in old'
    ensures var value := s[|pre| + |KEY|..];
            value == old' + "\n" + tail && LineLength(value) == |old'| && '\n' in value
  {
    var value := s[|pre| + |KEY|..];
    assert value == old' + "\n" + tail;
    assert value[|old'|] == '\n' && value[..|old'|] == old';
    LineLengthIs(value, |old'|);
  }

  lemma SpliceText(s: string, pre: string, old': string, tail: string, ifc: string)
    requires s == pre + "ctrl_interface=" + old' + "\n" + tail
    ensures var n := if |ifc| < |old'| then |old'| - |ifc| + 1 else 1;
            Splice(s, |pre| + |KEY|, |old'|, ifc) == pre + "ctrl_interface=" + ifc + seq(n, _ => '\n') + tail
  {
    var at := |pre| + |KEY|;
    assert s[..at] == pre + "ctrl_interface=" && s[at + |old'| + 1..] == tail;
  }

  lemma KeyFound(s: string, pre: string, rest: string)
    requires s == pre + "ctrl_interface=" + rest
    requires forall i :: 0 <= i < |pre| ==> !StartsAt(s, "ctrl_interface=", i)
    ensures Search(s, KEY, 0) == |pre|
  {
    assert s[|pre|..|pre| + |KEY|] == KEY;
    assert StartsAt(s, KEY, |pre|);
  }

  lemma NotItsPrefix(old': string, tail: string, ifc: string)
    requires '\n' !in ifc && !(ifc <= old')
    ensures !(ifc <= old' + "\n" + tail)
  {
    var text := old' + "\n" + tail;
    assert text[|old'|] == '\n' && text[..|old'|] == old';
    if |ifc| <= |old'| {
      assert text[..|ifc|] == old'[..|ifc|];
    }
  }

  // The file after a write of n bytes from the start without truncation.
  function Overwritten(file: string, data: string): string {
    if |data| >= |file| then data else data + file[|data|..]
  }

  // ----- The block operations -----

  function Moved(b: string, dst: nat, src: nat, n: nat): (r: string)
    requires dst + n <= |b| && src + n <= |b|
    ensures |r| == |b|
  {
    b[..dst] + b[src..src + n] + b[dst + n..]
  }

  function Put(b: string, at: nat, s: string): (r: string)
    requires at + |s| <= |b|
    ensures |r| == |b|
  {
    b[..at] + s + b[at + |s|..]
  }

  method Memmove(a: array<char>, dst: nat, src: nat, n: nat)
    requires dst + n <= a.Length && src + n <= a.Length
    modifies a
    ensures a[..] == Moved(old(a[..]), dst, src, n)
  {
    forall i | 0 <= i < n {
      a[dst + i] := a[src + i];
    }
  }

  method Memset(a: array<char>, at: nat, n: nat)
    requires at + n <= a.Length
    modifies a
    ensures a[..] == Put(old(a[..]), at, Newlines(n))
  {
    forall i | 0 <= i < n {
      a[at + i] := '\n';
    }
  }

  method Memcpy(a: array<char>, at: nat, s: string)
    requires at + |s| <= a.Length
    modifies a
    ensures a[..] == Put(old(a[..]), at, s)
  {
    forall i | 0 <= i < |s| {
      a[at + i] := s[i];
    }
  }

  lemma PutShape(b: string, at: nat, s: string)
    requires at + |s| <= |b|
    ensures var r := Put(b, at, s);
            r[..at] == b[..at] && r[at..at + |s|] == s && r[at + |s|..] == b[at + |s|..]
  {
  }

  // The three of them in sequence splice the line.
  lemma Blocks(b0: string, nread: nat, at: nat, ilen: nat, mlen: nat, ifc: string)
    requires at + ilen < nread && nread + |ifc| <= |b0| && mlen == Max(ilen, |ifc|) + 1
    ensures var b1 := Moved(b0, at + mlen, at + ilen + 1, nread - (at + ilen + 1));
            Put(Put(b1, at, Newlines(mlen)), at, ifc)[..nread + mlen - ilen - 1] == Splice(b0[..nread], at, ilen, ifc)
  {
    hide Put;
    var k := nread - (at + ilen + 1);
    var s, b1 := b0[..nread], Moved(b0, at + mlen, at + ilen + 1, k);
    var b2 := Put(b1, at, Newlines(mlen));
    assert b1[..at] == s[..at] && b1[at + mlen..at + mlen + k] == s[at + ilen + 1..];
    PutShape(b1, at, Newlines(mlen));
    PutShape(b2, at, ifc);
    Pasted(b1, b2, Put(b2, at, ifc), at, mlen, ifc, at + mlen + k);
  }

  lemma Pasted(b1: string, b2: string, b3: string, at: nat, mlen: nat, ifc: string, end: nat)
    requires |b1| == |b2| == |b3| && at + mlen <= end <= |b1| && |ifc| <= mlen
    requires b2[..at] == b1[..at] && b2[at..at + mlen] == Newlines(mlen) && b2[at + mlen..] == b1[at + mlen..]
    requires b3[..at] == b2[..at] && b3[at..at + |ifc|] == ifc && b3[at + |ifc|..] == b2[at + |ifc|..]
    ensures b3[..end] == b1[..at] + ifc + Newlines(mlen - |ifc|) + b1[at + mlen..end]
  {
    GapIsNewlines(b2, b3, at, mlen, ifc);
    TailIsKept(b1, b2, b3, at, mlen, ifc, end);
    Quarters(b3[..end], at, at + |ifc|, at + mlen);
  }

  lemma GapIsNewlines(b2: string, b3: string, at: nat, mlen: nat, ifc: string)
    requires |b2| == |b3| && at + mlen <= |b2| && |ifc| <= mlen
    requires b2[at..at + mlen] == Newlines(mlen) && b3[at + |ifc|..] == b2[at + |ifc|..]
    ensures b3[at + |ifc|..at + mlen] == Newlines(mlen - |ifc|)
  {
    var gap := b3[at + |ifc|..at + mlen];
    forall i | 0 <= i < |gap| ensures gap[i] == '\n' {
      assert b3[at + |ifc|..][i] == b2[at + |ifc|..][i] == b2[at..at + mlen][|ifc| + i];
    }
  }

  lemma TailIsKept(b1: string, b2: string, b3: string, at: nat, mlen: nat, ifc: string, end: nat)
    requires |b1| == |b2| == |b3| && at + mlen <= end <= |b1| && |ifc| <= mlen
    requires b2[at + mlen..] == b1[at + mlen..] && b3[at + |ifc|..] == b2[at + |ifc|..]
    ensures b3[at + mlen..end] == b1[at + mlen..end]
  {
    var kept, tail := b3[at + mlen..end], b1[at + mlen..end];
    forall i | 0 <= i < |kept| ensures kept[i] == tail[i] {
      assert b3[at + |ifc|..][mlen - |ifc| + i] == b2[at + |ifc|..][mlen - |ifc| + i];
      assert b2[at + mlen..][i] == b1[at + mlen..][i];
    }
  }

  lemma Quarters(s: string, i: nat, j: nat, k: nat)
    requires i <= j <= k <= |s|
    ensures s == s[..i] + s[i..j] + s[j..k] + s[k..]
  {
  }

  // The scan for the end of the line.
  method ScanLine(pbuf: array<char>, nread: nat, iptr: nat) returns (ilen: nat)
    requires iptr <= nread <= pbuf.Length
    ensures ilen == LineLength(pbuf[..nread][iptr..])
  {
    ghost var line := pbuf[..nread][iptr..];
    ilen := 0;
    while ilen + iptr < nread && pbuf[iptr + ilen] != '\n'
      invariant ilen + iptr <= nread && '\n' !in line[..ilen]
    {
      assert line[..ilen + 1] == line[..ilen] + [line[ilen]];
      ilen := ilen + 1;
    }
    LineLengthIs(line, ilen);
  }

  lemma LineLengthIs(s: string, n: nat)
    requires n <= |s| && '\n' !in s[..n] && (n < |s| ==> s[n] == '\n')
    ensures LineLength(s) == n
  {
    var m := LineLength(s);
    assert forall i :: 0 <= i < n ==> s[..n][i] == s[i];
    assert forall i :: 0 <= i < m ==> s[..m][i] == s[i];
  }

  // Rewrites the buffer in place. `n` is the number of bytes written back, 0 if none are.
  method UpdateBuffer(pbuf: array<char>, nread: nat, ifc: string) returns (n: nat)
    requires nread + PROPERTY_VALUE_MAX <= pbuf.Length && |ifc| < PROPERTY_VALUE_MAX
    requires NeedsRewrite(pbuf[..nread], ifc) ==> Terminated(pbuf[..nread])
    modifies pbuf
    ensures NeedsRewrite(old(pbuf[..nread]), ifc) ==>
              nread <= n <= pbuf.Length && pbuf[..n] == Rewrite(old(pbuf[..nread]), ifc)
    ensures !NeedsRewrite(old(pbuf[..nread]), ifc) ==> n == 0 && pbuf[..] == old(pbuf[..])
  {
    n := 0;
    if !NeedsRewrite(pbuf[..nread], ifc) {
      return;
    }
    RewriteShape(pbuf[..nread], ifc);
    var iptr := ValueAt(pbuf[..nread]);
    var ilen := ScanLine(pbuf, nread, iptr);
    hide *;
    assert old(pbuf[..])[..nread] == old(pbuf[..nread]);
    n := SpliceBuffer(pbuf, nread, iptr, ilen, ifc);
    assert pbuf[..][..n] == pbuf[..n];
  }

  method SpliceBuffer(pbuf: array<char>, nread: nat, iptr: nat, ilen: nat, ifc: string) returns (n: nat)
    requires iptr + ilen < nread && nread + |ifc| <= pbuf.Length
    modifies pbuf
    ensures n == nread + Max(ilen, |ifc|) - ilen <= pbuf.Length
    ensures pbuf[..][..n] == Splice(old(pbuf[..])[..nread], iptr, ilen, ifc)
  {
    hide Moved, Put, Splice;
    var mlen := Max(ilen, |ifc|) + 1;
    n := nread + mlen - ilen - 1;
    assert |Newlines(mlen)| == mlen && ilen < mlen && |ifc| < mlen && n <= pbuf.Length;
    Blocks(pbuf[..], nread, iptr, ilen, mlen, ifc);
    Memmove(pbuf, iptr + mlen, iptr + ilen + 1, nread - (iptr + ilen + 1));
    PutLine(pbuf, iptr, mlen, ifc);
  }

  method PutLine(pbuf: array<char>, iptr: nat, mlen: nat, ifc: string)
    requires iptr + mlen <= pbuf.Length && |ifc| <= mlen
    modifies pbuf
    ensures pbuf[..] == Put(Put(old(pbuf[..]), iptr, Newlines(mlen)), iptr, ifc)
  {
    hide Put;
    Memset(pbuf, iptr, mlen);
    Memcpy(pbuf, iptr, ifc);
  }

  // One run over the file: the buffer is sized and filled from it, rewritten, and written back
  // without truncation. No stale bytes remain, and the next run leaves the file alone.
  method UpdateFile(file: string, ifc: string) returns (file': string)
    requires |ifc| < PROPERTY_VALUE_MAX
    requires NeedsRewrite(file, ifc) ==> Terminated(file)
    ensures file' == Rewrite(file, ifc) && !NeedsRewrite(file', ifc)
  {
    var pbuf := new char[|file| + PROPERTY_VALUE_MAX];
    forall i | 0 <= i < |file| {
      pbuf[i] := file[i];
    }
    assert pbuf[..|file|] == file;
    RewriteIdempotent(file, ifc);
    hide *;
    var n := UpdateBuffer(pbuf, |file|, ifc);
    file' := file;
    if n != 0 {
      file' := Overwritten(file, pbuf[..n]);
    }
    Settled(file, ifc, file', n, pbuf[..]);
  }

  lemma Settled(file: string, ifc: string, file': string, n: nat, image: string)
    requires NeedsRewrite(file, ifc) ==> Terminated(file)
    requires NeedsRewrite(file, ifc) ==> |file| <= n <= |image| && image[..n] == Rewrite(file, ifc)
    requires !NeedsRewrite(file, ifc) ==> n == 0
    requires n <= |image| && file' == if n != 0 then Overwritten(file, image[..n]) else file
    ensures file' == Rewrite(file, ifc)
  {
  }
}
