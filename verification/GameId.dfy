/**
 The name of a PlayStation game, cleaned in place in the buffer of a C string: what stands before the
 first NUL is the text.
 */
module GameId {
  const NUL := '\0'

  // ----- C strings

  function EndFrom(s: seq<char>, k: nat): (n: nat)
    requires k <= |s|
    ensures k <= n <= |s|
    decreases |s| - k
  {
    if k == |s| || s[k] == NUL then k else EndFrom(s, k + 1)
  }

  /** The text in a buffer. */
  function Text(s: seq<char>): seq<char> {
    s[..EndFrom(s, 0)]
  }

  predicate EndsAt(s: seq<char>, n: nat) {
    n < |s| && s[n] == NUL && forall k :: 0 <= k < n ==> s[k] != NUL
  }

  predicate Terminated(s: seq<char>) {
    EndsAt(s, EndFrom(s, 0))
  }

  lemma {:induction false} EndIsFound(s: seq<char>, k: nat, n: nat)
    requires EndsAt(s, n) && k <= n
    ensures EndFrom(s, k) == n
    decreases n - k
  {
    if k < n { EndIsFound(s, k + 1, n); }
  }

  predicate OccursAt(s: seq<char>, pat: seq<char>, i: nat) {
    i + |pat| <= |s| && s[i..i + |pat|] == pat
  }

  ghost predicate OccursIn(s: seq<char>, pat: seq<char>, from: nat, to: nat) {
    exists i: nat :: from <= i < to && OccursAt(s, pat, i)
  }

  // ----- what cleaning means

  /** From `k` on, every leftmost occurrence is taken out, and none overlaps another. */
  function RemoveFrom(s: seq<char>, pat: seq<char>, k: nat): (r: seq<char>)
    requires pat != [] && k <= |s|
    ensures |r| <= |s| - k
    decreases |s| - k
  {
    if k == |s| then []
    else if OccursAt(s, pat, k) then RemoveFrom(s, pat, k + |pat|)
    else [s[k]] + RemoveFrom(s, pat, k + 1)
  }

  function RemoveAll(s: seq<char>, pat: seq<char>): (r: seq<char>)
    requires pat != []
    ensures |r| <= |s|
  {
    RemoveFrom(s, pat, 0)
  }

  function Before(s: seq<char>, c: char): (r: seq<char>)
    ensures |r| <= |s| && r == s[..|r|] && (|r| < |s| ==> s[|r|] == c)
    ensures forall k :: 0 <= k < |r| ==> r[k] != c
  {
    if s == [] || s[0] == c then [] else [s[0]] + Before(s[1..], c)
  }

  function ReplaceAll(s: seq<char>, find: char, replace: char): (r: seq<char>)
    ensures |r| == |s|
  {
    seq(|s|, i requires 0 <= i < |s| => if s[i] == find then replace else s[i])
  }

  /** Every `find` replaced; but a text ends where a NUL is written. */
  function Replaced(s: seq<char>, find: char, replace: char): (r: seq<char>)
    ensures |r| <= |s|
  {
    if replace == NUL then Before(s, find) else ReplaceAll(s, find, replace)
  }

  /** Without device and directories. */
  function WithoutPath(s: seq<char>): (r: seq<char>)
    ensures |r| <= |s|
  {
    RemoveAll(RemoveAll(RemoveAll(RemoveAll(RemoveAll(RemoveAll(s,
      "cdrom:"), "\\DSC\\"), "\\EXE\\"), "\\exe\\"), "\\TEKKEN3\\"), "\\MGS\\")
  }

  function WithoutMarks(s: seq<char>): (r: seq<char>)
    ensures |r| <= |s|
  {
    Replaced(Replaced(RemoveAll(RemoveAll(RemoveAll(s, "/"), "\\"), "."), '_', '-'), ';', NUL)
  }

  function Sanitized(s: seq<char>): seq<char> {
    WithoutMarks(WithoutPath(s))
  }

  /** Up to the next occurrence everything is kept. */
  lemma {:induction false} SkipTo(s: seq<char>, pat: seq<char>, k: nat, end: nat)
    requires pat != [] && k <= end <= |s| && !OccursIn(s, pat, k, end)
    ensures RemoveFrom(s, pat, k) == s[k..end] + RemoveFrom(s, pat, end)
    decreases |s| - k
  {
    if k < end {
      assert !OccursAt(s, pat, k);
      SkipTo(s, pat, k + 1, end);
      assert s[k..end] == [s[k]] + s[k + 1..end];
    }
  }

  lemma {:induction false} OnlyRemoves(s: seq<char>, pat: seq<char>, k: nat, c: char)
    requires pat != [] && k <= |s| && c in RemoveFrom(s, pat, k)
    ensures c in s
    decreases |s| - k
  {
    if OccursAt(s, pat, k) {
      OnlyRemoves(s, pat, k + |pat|, c);
    } else if c != s[k] {
      OnlyRemoves(s, pat, k + 1, c);
    }
  }

  /** A one-character pattern leaves none of its character. */
  lemma {:induction false} RemoveCharRemoves(s: seq<char>, k: nat, c: char)
    requires k <= |s|
    ensures c !in RemoveFrom(s, [c], k)
    decreases |s| - k
  {
    if k < |s| { RemoveCharRemoves(s, k + 1, c); }
  }

  lemma PathOnlyRemoves(s: seq<char>, c: char)
    requires c in WithoutPath(s)
    ensures c in s
  {
    var a := RemoveAll(s, "cdrom:");
    var b := RemoveAll(a, "\\DSC\\");
    var d := RemoveAll(b, "\\EXE\\");
    var e := RemoveAll(d, "\\exe\\");
    OnlyRemoves(RemoveAll(e, "\\TEKKEN3\\"), "\\MGS\\", 0, c);
    OnlyRemoves(e, "\\TEKKEN3\\", 0, c);
    OnlyRemoves(d, "\\exe\\", 0, c);
    OnlyRemoves(b, "\\EXE\\", 0, c);
    OnlyRemoves(a, "\\DSC\\", 0, c);
    OnlyRemoves(s, "cdrom:", 0, c);
  }

  lemma MarksAreGone(t: seq<char>, c: char)
    requires c in WithoutMarks(t)
    ensures c !in "/\\._;" && (c in t || c == '-')
  {
    var a := RemoveAll(t, "/");
    var b := RemoveAll(a, "\\");
    var d := RemoveAll(b, ".");
    assert c in ReplaceAll(d, '_', '-');
    if c != '-' {
      assert c in d;
      OnlyRemoves(b, ".", 0, c);
      OnlyRemoves(a, "\\", 0, c);
      OnlyRemoves(t, "/", 0, c);
      RemoveCharRemoves(t, 0, '/');
      RemoveCharRemoves(a, 0, '\\');
      RemoveCharRemoves(b, 0, '.');
    }
  }

  /** The cleaned text is no longer than the input and holds no path, extension or version mark. */
  lemma SanitizedIsClean(s: seq<char>)
    ensures |Sanitized(s)| <= |s|
    ensures forall c :: c in Sanitized(s) ==> c !in "/\\._;" && (c in s || c == '-')
  {
    forall c | c in Sanitized(s) ensures c !in "/\\._;" && (c in s || c == '-') {
      MarksAreGone(WithoutPath(s), c);
      if c != '-' { PathOnlyRemoves(s, c); }
    }
  }

  // ----- what is left of a boot path

  lemma OccurrenceHas(s: seq<char>, pat: seq<char>, i: nat, k: nat)
    requires OccursAt(s, pat, i) && k < |pat|
    ensures i + k < |s| && s[i + k] == pat[k]
  {
    assert s[i..i + |pat|][k] == s[i + k];
  }

  /** No occurrence ends where its last character is missing. */
  lemma AbsentFrom(s: seq<char>, pat: seq<char>, k: nat)
    requires pat != [] && k <= |s|
    requires forall j :: k + |pat| - 1 <= j < |s| ==> s[j] != pat[|pat| - 1]
    ensures RemoveFrom(s, pat, k) == s[k..]
  {
    forall i: nat | k <= i < |s| ensures !OccursAt(s, pat, i) {
      if i + |pat| <= |s| { assert s[i..i + |pat|][|pat| - 1] == s[i + |pat| - 1]; }
    }
    SkipTo(s, pat, k, |s|);
    assert s[k..|s|] == s[k..];
  }

  lemma AbsentPattern(s: seq<char>, pat: seq<char>)
    requires pat != [] && forall j :: |pat| - 1 <= j < |s| ==> s[j] != pat[|pat| - 1]
    ensures RemoveAll(s, pat) == s
  {
    AbsentFrom(s, pat, 0);
    assert s[0..] == s;
  }

  predicate Plain(s: seq<char>) {
    forall c :: c in s ==> c !in ":/\\._;"
  }

  /** A device in front and one backslash: only the device goes. */
  lemma PathIsRemoved(file: seq<char>)
    requires ':' !in file && '\\' !in file
    ensures WithoutPath("cdrom:\\" + file) == "\\" + file
  {
    var path, rest := "cdrom:\\" + file, "\\" + file;
    assert path[0..6] == "cdrom:" && path[6..] == rest;
    AbsentFrom(path, "cdrom:", 6);
    AbsentPattern(rest, "\\DSC\\");
    AbsentPattern(rest, "\\EXE\\");
    AbsentPattern(rest, "\\exe\\");
    AbsentPattern(rest, "\\TEKKEN3\\");
    AbsentPattern(rest, "\\MGS\\");
  }

  lemma SeparatorIsRemoved(s: seq<char>, c: char, t: seq<char>)
    requires c !in s && c !in t
    ensures RemoveAll(s + [c] + t, [c]) == s + t
  {
    var u, n := s + [c] + t, |s|;
    forall i: nat | i < n ensures !OccursAt(u, [c], i) {
      assert u[i..i + 1] == [s[i]];
    }
    SkipTo(u, [c], 0, n);
    assert u[0..n] == s && u[n..n + 1] == [c] && u[n + 1..] == t;
    forall j | n + 1 <= j < |u| ensures u[j] != c {
      assert u[j] == t[j - n - 1];
    }
    AbsentFrom(u, [c], n + 1);
  }

  lemma MarksAreRemoved(name: seq<char>, tail: seq<char>)
    requires forall c :: c in name || c in tail ==> c !in "/\\."
    ensures RemoveAll(RemoveAll(RemoveAll("\\" + (name + "." + tail), "/"), "\\"), ".") == name + tail
  {
    var file := name + "." + tail;
    forall j | 0 <= j < |file| ensures file[j] != '/' && file[j] != '\\' {
      if j < |name| { assert name[j] in name; } else if j > |name| { assert tail[j - |name| - 1] in tail; }
    }
    AbsentPattern("\\" + file, "/");
    assert "\\" + file == [] + ['\\'] + file;
    SeparatorIsRemoved([], '\\', file);
    assert [] + file == file;
    SeparatorIsRemoved(name, '.', tail);
  }

  lemma BeforeIs(s: seq<char>, c: char, t: seq<char>)
    requires c !in s
    ensures Before(s + [c] + t, c) == s
  {
    var u := s + [c] + t;
    assert u[|s|] == c && u[..|s|] == s;
    assert forall k :: 0 <= k < |s| ==> u[k] == s[k];
  }

  lemma MarksAreReplaced(letters: seq<char>, number: seq<char>, version: seq<char>)
    requires forall c :: c in letters || c in number || c in version ==> c !in "_;"
    ensures Replaced(Replaced(letters + "_" + (number + ";" + version), '_', '-'), ';', NUL) == letters + "-" + number
  {
    var t, u, n := letters + "_" + (number + ";" + version), (letters + "-" + number) + ";" + version, |letters|;
    var r, m := ReplaceAll(t, '_', '-'), n + 1 + |number|;
    forall k | 0 <= k < |u| ensures r[k] == u[k] {
      if k < n { assert letters[k] in letters; }
      else if n < k < m { assert number[k - n - 1] in number; }
      else if m < k { assert version[k - m - 1] in version; }
    }
    assert r == u;
    BeforeIs(letters + "-" + number, ';', version);
  }

  /** The boot path of a game, as its disc names it, becomes the game's serial. */
  lemma BootPathBecomesSerial(letters: seq<char>, high: seq<char>, low: seq<char>, version: seq<char>)
    requires Plain(letters) && Plain(high) && Plain(low) && Plain(version)
    ensures Sanitized("cdrom:\\" + (letters + "_" + high + "." + (low + ";" + version)))
         == letters + "-" + (high + low)
  {
    var name, tail := letters + "_" + high, low + ";" + version;
    PathIsRemoved(name + "." + tail);
    MarksAreRemoved(name, tail);
    assert name + tail == letters + "_" + (high + low + ";" + version);
    MarksAreReplaced(letters, high + low, version);
  }

  // ----- the same with a directory in it

  predicate IsDirectory(dir: seq<char>) {
    dir in ["\\DSC\\", "\\EXE\\", "\\exe\\", "\\TEKKEN3\\", "\\MGS\\"]
  }

  /** No other directory is found in a path with one. */
  lemma OtherDirectoryStays(dir: seq<char>, file: seq<char>, pat: seq<char>)
    requires IsDirectory(dir) && IsDirectory(pat) && pat != dir && '\\' !in file
    ensures RemoveAll(dir + file, pat) == dir + file
  {
    var s, n := dir + file, |pat|;
    assert forall i :: 0 < i < |s| && i != |dir| - 1 ==> s[i] != '\\';
    forall i: nat | i < |s| ensures !OccursAt(s, pat, i) {
      if OccursAt(s, pat, i) {
        OccurrenceHas(s, pat, i, 0);
        OccurrenceHas(s, pat, i, n - 1);
        OccurrenceHas(s, pat, i, 1);
      }
    }
    SkipTo(s, pat, 0, |s|);
    assert s[0..|s|] == s;
  }

  lemma DirectoryIsRemoved(dir: seq<char>, file: seq<char>)
    requires IsDirectory(dir) && '\\' !in file
    ensures RemoveAll(dir + file, dir) == file
  {
    var s := dir + file;
    assert s[0..|dir|] == dir && s[|dir|..] == file;
    AbsentFrom(s, dir, |dir|);
  }

  /** One step of the path cleaning. */
  lemma DirectoryStep(dir: seq<char>, file: seq<char>, pat: seq<char>, t: seq<char>)
    requires IsDirectory(dir) && IsDirectory(pat) && '\\' !in file && (t == file || t == dir + file)
    ensures RemoveAll(t, pat) == if t == file || pat == dir then file else t
  {
    if t == file {
      AbsentPattern(file, pat);
    } else if pat == dir {
      DirectoryIsRemoved(dir, file);
    } else {
      OtherDirectoryStays(dir, file, pat);
    }
  }

  lemma DirectoriesAreRemoved(dir: seq<char>, file: seq<char>)
    requires IsDirectory(dir) && ':' !in file && '\\' !in file
    ensures WithoutPath("cdrom:" + (dir + file)) == file
  {
    var path, t := "cdrom:" + (dir + file), dir + file;
    assert path[0..6] == "cdrom:" && path[6..] == t;
    AbsentFrom(path, "cdrom:", 6);
    var a := RemoveAll(t, "\\DSC\\");
    DirectoryStep(dir, file, "\\DSC\\", t);
    var b := RemoveAll(a, "\\EXE\\");
    DirectoryStep(dir, file, "\\EXE\\", a);
    var c := RemoveAll(b, "\\exe\\");
    DirectoryStep(dir, file, "\\exe\\", b);
    var d := RemoveAll(c, "\\TEKKEN3\\");
    DirectoryStep(dir, file, "\\TEKKEN3\\", c);
    DirectoryStep(dir, file, "\\MGS\\", d);
  }

  lemma NameMarksAreRemoved(name: seq<char>, tail: seq<char>)
    requires forall c :: c in name || c in tail ==> c !in "/\\."
    ensures RemoveAll(RemoveAll(RemoveAll(name + "." + tail, "/"), "\\"), ".") == name + tail
  {
    var file := name + "." + tail;
    forall j | 0 <= j < |file| ensures file[j] != '/' && file[j] != '\\' {
      if j < |name| { assert name[j] in name; } else if j > |name| { assert tail[j - |name| - 1] in tail; }
    }
    AbsentPattern(file, "/");
    AbsentPattern(file, "\\");
    SeparatorIsRemoved(name, '.', tail);
  }

  /** So does a boot path with one of the directories the games use. */
  lemma BootPathInDirectoryBecomesSerial(dir: seq<char>, letters: seq<char>, high: seq<char>, low: seq<char>, version: seq<char>)
    requires IsDirectory(dir) && Plain(letters) && Plain(high) && Plain(low) && Plain(version)
    ensures Sanitized("cdrom:" + (dir + (letters + "_" + high + "." + (low + ";" + version))))
         == letters + "-" + (high + low)
  {
    var name, tail := letters + "_" + high, low + ";" + version;
    DirectoriesAreRemoved(dir, name + "." + tail);
    NameMarksAreRemoved(name, tail);
    assert name + tail == letters + "_" + (high + low + ";" + version);
    MarksAreReplaced(letters, high + low, version);
  }

  // ----- the code, over a small part of the C library

  /** The first occurrence from `from` on, or -1. */
  ghost predicate IsNext(s: seq<char>, pat: seq<char>, from: nat, at: int) {
    if at < 0 then !OccursIn(s, pat, from, |s|) else from <= at && OccursAt(s, pat, at) && !OccursIn(s, pat, from, at)
  }

  method StrStr(a: array<char>, from: nat, pat: seq<char>) returns (at: int)
    requires Terminated(a[..]) && from <= |Text(a[..])| && pat != [] && NUL !in pat
    ensures IsNext(Text(a[..]), pat, from, at)
  {
    at := from;
    while a[at] != NUL
      invariant from <= at <= |Text(a[..])| && !OccursIn(Text(a[..]), pat, from, at)
      decreases a.Length - at
    {
      if at + |pat| <= a.Length && a[at..at + |pat|] == pat {
        InsideText(a[..], pat, at);
        return;
      }
      InsideText(a[..], pat, at);
      at := at + 1;
    }
    at := -1;
  }

  /** No occurrence reaches over the end of the text. */
  lemma InsideText(s: seq<char>, pat: seq<char>, at: nat)
    requires Terminated(s) && NUL !in pat && at < |Text(s)|
    ensures OccursAt(s, pat, at) <==> OccursAt(Text(s), pat, at)
  {
    if at + |pat| <= |s| {
      if OccursAt(s, pat, at) {
        forall j | at <= j < at + |pat| ensures s[j] != NUL { OccurrenceHas(s, pat, at, j - at); }
      }
      if at + |pat| <= |Text(s)| { assert Text(s)[at..at + |pat|] == s[at..at + |pat|]; }
    }
  }

  method StrChr(a: array<char>, from: nat, c: char) returns (at: int)
    requires Terminated(a[..]) && from <= |Text(a[..])| && c != NUL
    ensures at == -1 || from <= at < |Text(a[..])|
    ensures at >= 0 ==> a[at] == c && forall k :: from <= k < at ==> a[k] != c
    ensures at < 0 ==> forall k :: from <= k < |Text(a[..])| ==> a[k] != c
  {
    at := from;
    while a[at] != NUL
      invariant from <= at <= |Text(a[..])| && forall k :: from <= k < at ==> a[k] != c
      decreases a.Length - at
    {
      if a[at] == c { return; }
      at := at + 1;
    }
    at := -1;
  }

  ghost predicate Moved(was: seq<char>, now: seq<char>, to: nat, from: nat, n: nat)
    requires to <= from && from + n <= |was|
  {
    && |now| == |was|
    && (forall k :: to <= k < to + n ==> now[k] == was[k - to + from])
    && (forall k :: 0 <= k < to || to + n <= k < |was| ==> now[k] == was[k])
  }

  /** Moves `n` characters down, lowest first. */
  method Memmove(a: array<char>, to: nat, from: nat, n: nat)
    requires to <= from && from + n <= a.Length
    modifies a
    ensures Moved(old(a[..]), a[..], to, from, n)
  {
    for i := 0 to n
      invariant Moved(old(a[..]), a[..], to, from, i)
    {
      a[to + i] := a[from + i];
    }
  }

  /** The place of the NUL. */
  method StrLen(a: array<char>, from: nat) returns (end: nat)
    requires Terminated(a[..]) && from <= |Text(a[..])|
    ensures end == |Text(a[..])|
  {
    end := from;
    while a[end] != NUL
      invariant from <= end <= |Text(a[..])|
      decreases a.Length - end
    {
      end := end + 1;
    }
  }

  /** Occurrences behind `from` depend only on what is there. */
  lemma SameOccurrences(s: seq<char>, t: seq<char>, pat: seq<char>, from: nat)
    requires |s| == |t| && forall k :: from <= k < |s| ==> s[k] == t[k]
    ensures forall at :: IsNext(s, pat, from, at) ==> IsNext(t, pat, from, at)
  {
    forall i: nat | from <= i ensures OccursAt(s, pat, i) <==> OccursAt(t, pat, i) {
      if i + |pat| <= |s| { assert s[i..i + |pat|] == t[i..i + |pat|]; }
    }
  }

  /** What is kept already and what will be. */
  ghost function Result(s: seq<char>, now: seq<char>, pat: seq<char>, str: nat, copyFrom: nat): seq<char>
    requires pat != [] && str <= |now| && copyFrom <= |s|
  {
    now[..str] + RemoveFrom(s, pat, copyFrom)
  }

  /** Half way: what is kept so far lies in front of `str`, and all from `copyFrom` on is as it was. */
  ghost predicate Progress(was: seq<char>, now: seq<char>, pat: seq<char>, str: nat, copyFrom: nat)
    requires pat != []
  {
    && |now| == |was| && str < copyFrom <= |Text(was)|
    && EndsAt(was, |Text(was)|) && EndsAt(now, |Text(was)|) && |Text(now)| == |Text(was)|
    && (forall k :: copyFrom <= k < |now| ==> now[k] == was[k])
    && Result(Text(was), now, pat, str, copyFrom) == RemoveAll(Text(was), pat)
  }

  lemma FirstIsFound(was: seq<char>, pat: seq<char>, str: nat)
    requires pat != [] && Terminated(was) && IsNext(Text(was), pat, 0, str)
    ensures Progress(was, was, pat, str, str + |pat|)
  {
    SkipTo(Text(was), pat, 0, str);
    assert Text(was)[0..str] == was[..str];
  }

  lemma PieceMoved(s: seq<char>, now: seq<char>, next: seq<char>, str: nat, copyFrom: nat, end: nat, n: nat)
    requires str <= copyFrom <= end <= |s| && copyFrom + n <= |now| && end - copyFrom <= n
    requires Moved(now, next, str, copyFrom, n)
    requires forall k :: copyFrom <= k < end ==> now[k] == s[k]
    ensures next[..str + (end - copyFrom)] == now[..str] + s[copyFrom..end]
  {
    forall k | str <= k < str + (end - copyFrom) ensures next[k] == s[copyFrom..end][k - str] {}
  }

  lemma Gather(s: seq<char>, pat: seq<char>, kept: seq<char>, copyFrom: nat, copyEnd: nat)
    requires pat != [] && copyFrom <= copyEnd && OccursAt(s, pat, copyEnd) && !OccursIn(s, pat, copyFrom, copyEnd)
    ensures kept + s[copyFrom..copyEnd] + RemoveFrom(s, pat, copyEnd + |pat|) == kept + RemoveFrom(s, pat, copyFrom)
  {
    SkipTo(s, pat, copyFrom, copyEnd);
  }

  lemma NextIsFound(was: seq<char>, now: seq<char>, next: seq<char>, pat: seq<char>, str: nat, copyFrom: nat, copyEnd: nat)
    requires pat != [] && Progress(was, now, pat, str, copyFrom) && IsNext(Text(was), pat, copyFrom, copyEnd)
    requires Moved(now, next, str, copyFrom, copyEnd - copyFrom)
    ensures Progress(was, next, pat, str + (copyEnd - copyFrom), copyEnd + |pat|)
  {
    var s := Text(was);
    Gather(s, pat, now[..str], copyFrom, copyEnd);
    PieceMoved(s, now, next, str, copyFrom, copyEnd, copyEnd - copyFrom);
    EndIsFound(next, 0, |s|);
  }

  lemma NoMoreIsFound(was: seq<char>, now: seq<char>, next: seq<char>, pat: seq<char>, str: nat, copyFrom: nat)
    requires pat != [] && Progress(was, now, pat, str, copyFrom) && IsNext(Text(was), pat, copyFrom, -1)
    requires Moved(now, next, str, copyFrom, 1 + |Text(was)| - copyFrom)
    ensures Text(next) == RemoveAll(Text(was), pat) && Terminated(next)
  {
    var s := Text(was);
    SkipTo(s, pat, copyFrom, |s|);
    PieceMoved(s, now, next, str, copyFrom, |s|, 1 + |s| - copyFrom);
    EndIsFound(next, 0, str + (|s| - copyFrom));
  }

  /** Closes one gap and looks for the next occurrence, in what has not changed. */
  method MovePiece(a: array<char>, ghost was: seq<char>, pat: seq<char>, str: nat, copyFrom: nat, copyEnd: nat)
      returns (str': nat, copyFrom': nat, copyEnd': int)
    requires pat != [] && NUL !in pat && Progress(was, a[..], pat, str, copyFrom)
    requires IsNext(Text(was), pat, copyFrom, copyEnd)
    modifies a
    ensures copyFrom < copyFrom' && Progress(was, a[..], pat, str', copyFrom')
    ensures IsNext(Text(was), pat, copyFrom', copyEnd')
  {
    ghost var now := a[..];
    Memmove(a, str, copyFrom, copyEnd - copyFrom);
    ghost var next := a[..];
    NextIsFound(was, now, next, pat, str, copyFrom, copyEnd);
    str' := str + (copyEnd - copyFrom);
    copyFrom' := copyEnd + |pat|;
    copyEnd' := StrStr(a, copyFrom', pat);
    assert a[..] == next;
    SameOccurrences(Text(next), Text(was), pat, copyFrom');
  }

  /** Takes out every occurrence of a pattern in place; nothing behind the old end changes. */
  method Rolfl(a: array<char>, pat: seq<char>)
    requires Terminated(a[..]) && pat != [] && NUL !in pat
    modifies a
    ensures Text(a[..]) == RemoveAll(old(Text(a[..])), pat) && Terminated(a[..])
    ensures forall k :: |old(Text(a[..]))| < k < a.Length ==> a[k] == old(a[k])
  {
    ghost var was, s := a[..], Text(a[..]);
    var str := StrStr(a, 0, pat);
    if str < 0 {
      SkipTo(s, pat, 0, |s|);
      return;
    }
    FirstIsFound(was, pat, str);
    var copyFrom := str + |pat|;
    var copyEnd := StrStr(a, copyFrom, pat);
    while copyEnd >= 0
      invariant 0 <= str < copyFrom && Progress(was, a[..], pat, str, copyFrom)
      invariant IsNext(s, pat, copyFrom, copyEnd)
      decreases |s| - copyFrom
    {
      str, copyFrom, copyEnd := MovePiece(a, was, pat, str, copyFrom, copyEnd);
    }
    ghost var now := a[..];
    var end := StrLen(a, copyFrom);
    Memmove(a, str, copyFrom, 1 + end - copyFrom);
    NoMoreIsFound(was, now, a[..], pat, str, copyFrom);
  }

  /** Everything in front of `at` is done. */
  ghost predicate DoneTo(was: seq<char>, now: seq<char>, find: char, replace: char, at: nat) {
    && |now| == |was| && at <= |Text(was)|
    && (forall k :: 0 <= k < at ==> now[k] == if was[k] == find then replace else was[k])
    && (forall k :: at <= k < |now| ==> now[k] == was[k])
  }

  lemma NoneLeft(was: seq<char>, now: seq<char>, find: char, replace: char)
    requires Terminated(was) && DoneTo(was, now, find, replace, |Text(was)|) && replace != NUL
    ensures Terminated(now) && Text(now) == ReplaceAll(Text(was), find, replace)
  {
    EndIsFound(now, 0, |Text(was)|);
  }

  lemma CutAt(was: seq<char>, now: seq<char>, find: char, at: nat)
    requires Terminated(was) && at < |Text(was)| && was[at] == find && now == was[at := NUL]
    requires forall k :: 0 <= k < at ==> was[k] != find
    ensures Terminated(now) && Text(now) == Before(Text(was), find)
  {
    EndIsFound(now, 0, at);
    var s := Text(was);
    assert s == s[..at] + [find] + s[at + 1..];
    BeforeIs(s[..at], find, s[at + 1..]);
    assert Text(now) == s[..at];
  }

  lemma {:induction false} NoneCut(s: seq<char>, find: char)
    requires find !in s
    ensures Before(s, find) == s
  {
    if s != [] { NoneCut(s[1..], find); }
  }

  /** The next place to replace is `at`, or there is none. */
  ghost predicate NextAt(was: seq<char>, find: char, from: nat, at: int) {
    && -1 <= at < |Text(was)| && (at >= 0 ==> from <= at && was[at] == find)
    && forall k :: from <= k < (if at < 0 then |Text(was)| else at) ==> was[k] != find
  }

  /** Looks for `find` again from the place where it was last replaced. */
  method ReplaceChar(a: array<char>, find: char, replace: char)
    requires Terminated(a[..]) && find != replace && find != NUL
    modifies a
    ensures Text(a[..]) == Replaced(old(Text(a[..])), find, replace) && Terminated(a[..])
    ensures forall k :: |old(Text(a[..]))| < k < a.Length ==> a[k] == old(a[k])
  {
    ghost var was, n := a[..], |Text(a[..])|;
    ghost var from := 0;
    var at := StrChr(a, 0, find);
    while at >= 0
      invariant from <= n && Terminated(a[..]) && forall k :: n < k < a.Length ==> a[k] == was[k]
      invariant replace != NUL || from == 0 ==>
        DoneTo(was, a[..], find, replace, from) && |Text(a[..])| == n && NextAt(was, find, from, at)
      invariant replace == NUL && from > 0 ==> at < 0 && Text(a[..]) == Before(Text(was), find)
      decreases n - from
    {
      a[at] := replace;
      from := at + 1;
      if replace == NUL {
        CutAt(was, a[..], find, at);
      } else {
        EndIsFound(a[..], 0, n);
      }
      at := StrChr(a, at, find);
    }
    if replace != NUL {
      NoneLeft(was, a[..], find, replace);
    } else if from == 0 {
      NoneCut(Text(was), find);
    }
  }

  method Ps1GidSanitize(gameId: array<char>)
    requires Terminated(gameId[..])
    modifies gameId
    ensures Text(gameId[..]) == Sanitized(old(Text(gameId[..])))
  {
    Rolfl(gameId, "cdrom:");
    Rolfl(gameId, "\\DSC\\");
    Rolfl(gameId, "\\EXE\\");
    Rolfl(gameId, "\\exe\\");
    Rolfl(gameId, "\\TEKKEN3\\");
    Rolfl(gameId, "\\MGS\\");
    Rolfl(gameId, "/");
    Rolfl(gameId, "\\");
    Rolfl(gameId, ".");
    ReplaceChar(gameId, '_', '-');
    ReplaceChar(gameId, ';', NUL);
  }
}
