/** The names under which files and shards are stored and announced. */
module ArchonUrls {
  import opened Decimals

  const SHARD_FILE_SUFFIX := "afs"
  const HASH_FILE_SUFFIX := "afh"
  const WHOLE_FILE_SUFFIX := "af"

  /** `needed` is 0 for a file that is stored whole, `username` empty for a hash URL. */
  datatype ArchonUrl = ArchonUrl(username: string, permission: string, path: string, needed: int, total: int)
  {
    predicate IsHash() { username == "" }
    predicate IsWholeFile() { needed == 0 }
  }

  const INVALID_USER_NAME_CHARS := "/\\.#@~*<>:\"?"

  predicate IsBase58(c: char) {
    '1' <= c <= '9' || ('A' <= c <= 'Z' && c != 'I' && c != 'O') || ('a' <= c <= 'z' && c != 'l')
  }

  /** What `NewArchonUrl` lets through, as far as the names of files depend on it; the
      path of a named URL may be anything. */
  predicate Legal(a: ArchonUrl) {
    if a.IsHash() then forall c <- a.path :: IsBase58(c)
    else (a.permission == "eth" || a.permission == "neo") && forall c <- a.username :: c !in INVALID_USER_NAME_CHARS
  }

  predicate IsSlash(c: char) {
    c == '/' || c == '\\'
  }

  function TrimLeft(s: string): string {
    if s != "" && IsSlash(s[0]) then TrimLeft(s[1..]) else s
  }

  function TrimRight(s: string): string {
    if s != "" && IsSlash(s[|s| - 1]) then TrimRight(s[..|s| - 1]) else s
  }

  /** `strings.Trim` of both kinds of slashes. */
  function Trimmed(s: string): string {
    TrimRight(TrimLeft(s))
  }

  function ShardPath(a: ArchonUrl, shardIx: int): string {
    if a.IsHash() then
      if a.IsWholeFile() then a.path + "." + HASH_FILE_SUFFIX
      else a.path + "." + Decimal(shardIx) + "." + HASH_FILE_SUFFIX
    else
      var named := a.permission + "/" + a.username + "/" + Trimmed(a.path);
      if a.IsWholeFile() then named + "." + WHOLE_FILE_SUFFIX
      else named + "." + Decimal(shardIx) + "." + SHARD_FILE_SUFFIX
  }

  lemma {:induction false} TrimmedLeft(s: string) returns (i: nat)
    ensures i <= |s| && TrimLeft(s) == s[i..]
    ensures forall k | 0 <= k < i :: IsSlash(s[k])
    ensures i < |s| ==> !IsSlash(s[i])
  {
    hide IsSlash;
    if s != "" && IsSlash(s[0]) {
      i := TrimmedLeft(s[1..]);
      assert s[1..][i..] == s[i + 1..];
      assert forall k | 1 <= k < i + 1 :: s[k] == s[1..][k - 1];
      i := i + 1;
    } else {
      i := 0;
    }
  }

  lemma {:induction false} TrimmedRight(s: string) returns (j: nat)
    ensures j <= |s| && TrimRight(s) == s[..j]
    ensures forall k | j <= k < |s| :: IsSlash(s[k])
    ensures j > 0 ==> !IsSlash(s[j - 1])
  {
    hide IsSlash;
    if s != "" && IsSlash(s[|s| - 1]) {
      j := TrimmedRight(s[..|s| - 1]);
      assert s[..|s| - 1][..j] == s[..j];
    } else {
      j := |s|;
    }
  }

  /** The slashes at both ends are gone, and nothing else. */
  lemma TrimmedTells(s: string) returns (i: nat, j: nat)
    ensures i <= j <= |s| && Trimmed(s) == s[i..j]
    ensures forall k | 0 <= k < |s| && (k < i || j <= k) :: s[k] == '/' || s[k] == '\\'
    ensures i < j ==> s[i] != '/' && s[i] != '\\' && s[j - 1] != '/' && s[j - 1] != '\\'
  {
    hide TrimLeft, TrimRight;
    i := TrimmedLeft(s);
    var left := s[i..];
    j := TrimmedRight(left);
    assert left[..j] == s[i..i + j];
    assert forall k | i + j <= k < |s| :: s[k] == left[k - i];
    j := i + j;
  }

  /** A shard or file of a named URL, and one of a hash URL, as their names look. */
  lemma NamesLookLike(hash: string)
    ensures ShardPath(ArchonUrl("bob", "eth", "a", 2, 6), 3) == "eth/bob/a.3.afs"
    ensures ShardPath(ArchonUrl("bob", "neo", "a", 0, 0), 0) == "neo/bob/a.af"
    ensures ShardPath(ArchonUrl("", "", hash, 2, 6), 3) == hash + ".3.afh"
    ensures ShardPath(ArchonUrl("", "", hash, 0, 0), 0) == hash + ".afh"
  {
    assert Decimal(3) == "3" && Trimmed("a") == "a";
    hide Decimal, Trimmed;
  }

  /** The two names mean the same file or shard. */
  predicate SamePlace(a: ArchonUrl, i: int, b: ArchonUrl, j: int) {
    && a.IsHash() == b.IsHash() && a.IsWholeFile() == b.IsWholeFile()
    && (a.IsHash() ==> a.path == b.path)
    && (!a.IsHash() ==>
      a.permission == b.permission && a.username == b.username && Trimmed(a.path) == Trimmed(b.path))
    && (!a.IsWholeFile() ==> i == j)
  }

  // ---- where a name comes apart ----

  lemma LastPart(s: string, t: string, u: string, v: string, c: char)
    requires c !in t && c !in v && s + [c] + t == u + [c] + v
    ensures s == u && t == v
  {
    var w := s + [c] + t;
    assert w == u + [c] + v && w[|s|] == c && w[|u|] == c;
    forall k | |s| < k < |w| ensures w[k] != c {
      assert w[k] == t[k - |s| - 1];
    }
    forall k | |u| < k < |w| ensures w[k] != c {
      assert w[k] == v[k - |u| - 1];
    }
    assert s == w[..|s|] && u == w[..|u|] && t == w[|s| + 1..] && v == w[|u| + 1..];
  }

  lemma FirstPart(s: string, t: string, u: string, v: string, c: char)
    requires c !in s && c !in u && s + [c] + t == u + [c] + v
    ensures s == u && t == v
  {
    var w := s + [c] + t;
    assert w == u + [c] + v && w[|s|] == c && w[|u|] == c;
    forall k | 0 <= k < |s| ensures w[k] != c {
      assert w[k] == s[k];
    }
    forall k | 0 <= k < |u| ensures w[k] != c {
      assert w[k] == u[k];
    }
    assert s == w[..|s|] && u == w[..|u|] && t == w[|s| + 1..] && v == w[|u| + 1..];
  }

  function Suffix(a: ArchonUrl): (s: string)
    ensures '.' !in s
    ensures s == "afh" <==> a.IsHash()
    ensures s == "af" <==> !a.IsHash() && a.IsWholeFile()
  {
    if a.IsHash() then HASH_FILE_SUFFIX else if a.IsWholeFile() then WHOLE_FILE_SUFFIX else SHARD_FILE_SUFFIX
  }

  /** The name without its suffix and index. */
  function Base(a: ArchonUrl): string {
    if a.IsHash() then a.path else a.permission + "/" + a.username + "/" + Trimmed(a.path)
  }

  function Stem(a: ArchonUrl, i: int): string {
    if a.IsWholeFile() then Base(a) else Base(a) + "." + Decimal(i)
  }

  lemma PathParts(a: ArchonUrl, i: int)
    ensures ShardPath(a, i) == Stem(a, i) + ['.'] + Suffix(a)
  {
  }

  /** The dot tells the shard of a hashed file from the whole file. */
  lemma DotInStem(a: ArchonUrl, i: int)
    requires Legal(a) && a.IsHash()
    ensures '.' in Stem(a, i) <==> !a.IsWholeFile()
  {
    if !a.IsWholeFile() {
      assert Stem(a, i)[|Base(a)|] == '.';
    }
  }

  lemma StemApart(a: ArchonUrl, i: int, b: ArchonUrl, j: int)
    requires Legal(a) && Legal(b) && Stem(a, i) == Stem(b, j)
    requires a.IsHash() == b.IsHash() && (!a.IsHash() ==> a.IsWholeFile() == b.IsWholeFile())
    ensures a.IsWholeFile() == b.IsWholeFile() && Base(a) == Base(b) && (!a.IsWholeFile() ==> i == j)
  {
    if a.IsHash() {
      DotInStem(a, i);
      DotInStem(b, j);
    }
    assert '.' !in Decimal(i) && '.' !in Decimal(j);
    hide Trimmed, Decimal;
    if !a.IsWholeFile() {
      LastPart(Base(a), Decimal(i), Base(b), Decimal(j), '.');
      DecimalInjective(i, j);
    }
  }

  lemma BaseApart(a: ArchonUrl, b: ArchonUrl)
    requires Legal(a) && Legal(b) && Base(a) == Base(b) && !a.IsHash() && !b.IsHash()
    ensures a.permission == b.permission && a.username == b.username && Trimmed(a.path) == Trimmed(b.path)
  {
    var t, v := Trimmed(a.path), Trimmed(b.path);
    hide Trimmed;
    assert Base(a) == a.permission + ['/'] + (a.username + ['/'] + t);
    assert Base(b) == b.permission + ['/'] + (b.username + ['/'] + v);
    FirstPart(a.permission, a.username + ['/'] + t, b.permission, b.username + ['/'] + v, '/');
    assert '/' in INVALID_USER_NAME_CHARS;
    FirstPart(a.username, t, b.username, v, '/');
  }

  /** Two legal URLs have a name in common exactly when the name means the same file or
      shard in both. */
  lemma ShardPathInjective(a: ArchonUrl, i: int, b: ArchonUrl, j: int)
    requires Legal(a) && Legal(b)
    ensures ShardPath(a, i) == ShardPath(b, j) <==> SamePlace(a, i, b, j)
  {
    PathParts(a, i);
    PathParts(b, j);
    if ShardPath(a, i) == ShardPath(b, j) {
      LastPart(Stem(a, i), Suffix(a), Stem(b, j), Suffix(b), '.');
      StemApart(a, i, b, j);
      if !a.IsHash() {
        BaseApart(a, b);
      }
    }
  }

  method ShardPaths(a: ArchonUrl) returns (paths: seq<string>)
    ensures if a.IsWholeFile() then paths == [ShardPath(a, 0)]
      else |paths| == (if a.total < 0 then 0 else a.total) && forall i | 0 <= i < |paths| :: paths[i] == ShardPath(a, i)
    ensures forall i, j | 0 <= i < j < |paths| :: paths[i] != paths[j]
  {
    hide ShardPath;
    paths := [];
    if a.IsWholeFile() {
      paths := paths + [ShardPath(a, 0)];
    } else {
      var i := 0;
      while i < a.total
        invariant |paths| == i && (i <= a.total || i == 0)
        invariant forall k | 0 <= k < i :: paths[k] == ShardPath(a, k)
        invariant forall k, l | 0 <= k < l < |paths| :: paths[k] != paths[l]
      {
        forall k | 0 <= k < i ensures ShardPath(a, k) != ShardPath(a, i) {
          IndexDistinguishes(a, k, i);
        }
        paths := paths + [ShardPath(a, i)];
        i := i + 1;
      }
    }
  }

  /** Whatever the URL, the shards of a file have different names. */
  lemma IndexDistinguishes(a: ArchonUrl, i: int, j: int)
    requires !a.IsWholeFile()
    ensures ShardPath(a, i) == ShardPath(a, j) <==> i == j
  {
    PathParts(a, i);
    PathParts(a, j);
    if ShardPath(a, i) == ShardPath(a, j) {
      LastPart(Stem(a, i), Suffix(a), Stem(a, j), Suffix(a), '.');
      assert '.' !in Decimal(i) && '.' !in Decimal(j);
      LastPart(Base(a), Decimal(i), Base(a), Decimal(j), '.');
      DecimalInjective(i, j);
    }
  }
}
