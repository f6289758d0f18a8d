/** Which mnemonic a first-version seed file holds, and which files a load looks for and makes. */
module SeedText {
  import opened Wrappers
  import opened WalletLoader
  import opened WalletIdentity

  // Trimming.

  /** What is dropped lies outside `low` and `high`, and what is left does not begin or end with it. */
  ghost predicate Spans(s: string, low: nat, high: nat, drop: char -> bool) {
    low <= high <= |s| && (forall i :: 0 <= i < low ==> drop(s[i])) && (forall i :: high <= i < |s| ==> drop(s[i])) &&
    (low < high ==> !drop(s[low]) && !drop(s[high - 1]))
  }

  /** `t` is `s` without the dropped characters at its two ends. */
  ghost predicate TrimmedTo(s: string, t: string, drop: char -> bool) {
    exists low: nat, high: nat :: Spans(s, low, high, drop) && t == s[low..high]
  }

  lemma {:induction false} TrimStartExact(s: string, drop: char -> bool) returns (low: nat)
    ensures low <= |s| && TrimStart(s, drop) == s[low..] && forall i :: 0 <= i < low ==> drop(s[i])
    ensures low < |s| ==> !drop(s[low])
  {
    if s != [] && drop(s[0]) {
      var rest := TrimStartExact(s[1..], drop);
      low := rest + 1;
      assert forall i :: 0 < i < low ==> s[i] == s[1..][i - 1];
    } else {
      low := 0;
    }
  }

  lemma {:induction false} TrimEndExact(s: string, drop: char -> bool) returns (high: nat)
    ensures high <= |s| && TrimEnd(s, drop) == s[..high] && forall i :: high <= i < |s| ==> drop(s[i])
    ensures high > 0 ==> !drop(s[high - 1])
  {
    if s != [] && drop(s[|s| - 1]) {
      high := TrimEndExact(s[..|s| - 1], drop);
    } else {
      high := |s|;
    }
  }

  lemma TrimExact(s: string, drop: char -> bool)
    ensures TrimmedTo(s, Trim(s, drop), drop)
  {
    var low := TrimStartExact(s, drop);
    var t := TrimStart(s, drop);
    var high := TrimEndExact(t, drop);
    assert Spans(s, low, low + high, drop) by {
      assert forall i :: low + high <= i < |s| ==> s[i] == t[i - low];
      assert high > 0 ==> s[low] == t[0] && s[low + high - 1] == t[high - 1];
    }
    assert t[..high] == s[low..low + high];
  }

  lemma SpansOnce(s: string, low: nat, high: nat, low': nat, high': nat, drop: char -> bool)
    requires Spans(s, low, high, drop) && Spans(s, low', high', drop)
    ensures s[low..high] == s[low'..high']
  {
    if low < high {
      assert !drop(s[low]) && !drop(s[high - 1]);
      assert low' <= low && high <= high';
    }
    if low' < high' {
      assert !drop(s[low']) && !drop(s[high' - 1]);
      assert low <= low' && high' <= high;
    }
  }

  /** There is only one way to trim. */
  lemma TrimmedOnce(s: string, t: string, u: string, drop: char -> bool)
    requires TrimmedTo(s, t, drop) && TrimmedTo(s, u, drop)
    ensures t == u
  {
    var low: nat, high: nat :| Spans(s, low, high, drop) && t == s[low..high];
    var low': nat, high': nat :| Spans(s, low', high', drop) && u == s[low'..high'];
    SpansOnce(s, low, high, low', high', drop);
  }

  /** The characters that count as white space. */
  const WHITE_SPACE := "\t\n\U{000B}\U{000C}\r \U{0085}\U{00A0}\U{1680}\U{2000}\U{2001}\U{2002}\U{2003}\U{2004}" +
                       "\U{2005}\U{2006}\U{2007}\U{2008}\U{2009}\U{200A}\U{2028}\U{2029}\U{202F}\U{205F}\U{3000}"

  lemma WhitespaceExact(c: char)
    ensures IsWhitespace(c) <==> c in WHITE_SPACE
  {
  }

  /** `m` is left of `content` after trimming first white space, then quotes, line feeds and carriage returns. */
  ghost predicate Holds(content: string, m: string) {
    exists a, b, c ::
      TrimmedTo(content, a, IsWhitespace) && TrimmedTo(a, b, IsQuote) && TrimmedTo(b, c, IsLineFeed) &&
      TrimmedTo(c, m, IsReturn)
  }

  lemma HeldOnce(content: string, m: string)
    requires Holds(content, m)
    ensures m == Stripped(content)
  {
    var a, b, c :|
      TrimmedTo(content, a, IsWhitespace) && TrimmedTo(a, b, IsQuote) && TrimmedTo(b, c, IsLineFeed) &&
      TrimmedTo(c, m, IsReturn);
    TrimExact(content, IsWhitespace);
    TrimmedOnce(content, a, Trim(content, IsWhitespace), IsWhitespace);
    TrimExact(a, IsQuote);
    TrimmedOnce(a, b, Trim(a, IsQuote), IsQuote);
    TrimExact(b, IsLineFeed);
    TrimmedOnce(b, c, Trim(b, IsLineFeed), IsLineFeed);
    TrimExact(c, IsReturn);
    TrimmedOnce(c, m, Trim(c, IsReturn), IsReturn);
  }

  /** A first-version file holds exactly what is left of its content after the four trimmings. */
  lemma StrippedExact(content: string, m: string)
    ensures Stripped(content) == m <==> Holds(content, m)
  {
    if Stripped(content) == m {
      var a := Trim(content, IsWhitespace);
      var b := Trim(a, IsQuote);
      var c := Trim(b, IsLineFeed);
      TrimExact(content, IsWhitespace);
      TrimExact(a, IsQuote);
      TrimExact(b, IsLineFeed);
      TrimExact(c, IsReturn);
    }
    if Holds(content, m) {
      HeldOnce(content, m);
    }
  }

  predicate Dropped(c: char) {
    c in WHITE_SPACE || c == '"' || c == '\n' || c == '\r'
  }

  /** `t` lies in `s` from `low` to `high`, with only dropped characters outside. */
  ghost predicate IsPart(s: string, t: string, low: nat, high: nat) {
    low <= high <= |s| && t == s[low..high] && forall i :: 0 <= i < low || high <= i < |s| ==> Dropped(s[i])
  }

  lemma SliceOfSlice(s: string, low: nat, high: nat, l: nat, h: nat)
    requires low <= high <= |s| && l <= h <= high - low
    ensures s[low..high][l..h] == s[low + l..low + h]
  {
    var t, u := s[low..high][l..h], s[low + l..low + h];
    assert |t| == |u| && forall i :: 0 <= i < |t| ==> t[i] == u[i];
  }

  lemma PartOfPart(s: string, t: string, low: nat, high: nat, u: string, drop: char -> bool)
    returns (low': nat, high': nat)
    requires IsPart(s, t, low, high) && u == Trim(t, drop) && forall c :: drop(c) ==> Dropped(c)
    ensures IsPart(s, u, low', high')
  {
    var l, h := TrimmedPart(t, u, drop);
    low', high' := low + l, low + h;
    assert u == s[low'..high'] by {
      SliceOfSlice(s, low, high, l, h);
    }
    forall i | 0 <= i < low' || high' <= i < |s| ensures Dropped(s[i]) {
      if low <= i < high {
        assert s[i] == t[i - low];
      }
    }
  }

  /** What is left is a contiguous part of the content; only white space, quotes, line feeds and carriage returns lie
      outside it. */
  lemma StrippedIsPart(content: string) returns (low: nat, high: nat)
    ensures IsPart(content, Stripped(content), low, high)
  {
    forall c: char ensures IsWhitespace(c) <==> c in WHITE_SPACE {
      WhitespaceExact(c);
    }
    var a := Trim(content, IsWhitespace);
    var b := Trim(a, IsQuote);
    var c := Trim(b, IsLineFeed);
    assert IsPart(content, content, 0, |content|);
    low, high := PartOfPart(content, content, 0, |content|, a, IsWhitespace);
    low, high := PartOfPart(content, a, low, high, b, IsQuote);
    low, high := PartOfPart(content, b, low, high, c, IsLineFeed);
    low, high := PartOfPart(content, c, low, high, Stripped(content), IsReturn);
  }

  lemma TrimmedPart(s: string, t: string, drop: char -> bool) returns (low: nat, high: nat)
    requires t == Trim(s, drop)
    ensures Spans(s, low, high, drop) && t == s[low..high]
  {
    TrimExact(s, drop);
    low, high :| Spans(s, low, high, drop) && t == s[low..high];
  }

  /** A text with neither end dropped is trimmed to itself. */
  lemma AlreadyTrimmed(m: string, drop: char -> bool)
    requires m != [] ==> !drop(m[0]) && !drop(m[|m| - 1])
    ensures TrimmedTo(m, m, drop)
  {
    assert Spans(m, 0, |m|, drop) && m == m[0..|m|];
  }

  lemma TrimmedBetween(s: string, before: string, m: string, after: string, drop: char -> bool)
    requires s == before + m + after
    requires (forall i :: 0 <= i < |before| ==> drop(before[i])) && (forall i :: 0 <= i < |after| ==> drop(after[i]))
    requires m != [] ==> !drop(m[0]) && !drop(m[|m| - 1])
    ensures TrimmedTo(s, m, drop)
  {
    var low, high := |before|, |before| + |m|;
    assert Spans(s, low, high, drop) by {
      assert forall i :: 0 <= i < low ==> s[i] == before[i];
      assert forall i :: high <= i < |s| ==> s[i] == after[i - high];
    }
    assert m == s[low..high];
  }

  /** A mnemonic in double quotes, with white space around them, is held without either. */
  lemma QuotedMnemonic(content: string, before: string, m: string, after: string)
    requires content == before + ("\"" + m + "\"") + after
    requires (forall i :: 0 <= i < |before| ==> before[i] in WHITE_SPACE) &&
             (forall i :: 0 <= i < |after| ==> after[i] in WHITE_SPACE)
    requires m != [] ==> m[0] !in "\"\n\r" && m[|m| - 1] !in "\"\n\r"
    ensures Holds(content, m)
  {
    var quoted := "\"" + m + "\"";
    forall c: char ensures IsWhitespace(c) <==> c in WHITE_SPACE {
      WhitespaceExact(c);
    }
    assert quoted[0] == '"' && quoted[|quoted| - 1] == '"';
    TrimmedBetween(content, before, quoted, after, IsWhitespace);
    TrimmedBetween(quoted, "\"", m, "\"", IsQuote);
    AlreadyTrimmed(m, IsLineFeed);
    AlreadyTrimmed(m, IsReturn);
  }

  // What loading makes of it.

  /** Where a path's seed is read. */
  function SeedAt(nodes: Nodes, path: Path): Path {
    if IsDir(nodes, path) then path + ["wallet.seed"] else path
  }

  /** A file that no password decrypts gives the key of the mnemonic it holds with the password appended. */
  lemma HeldMnemonicLoads(crypto: Crypto, nodes: Nodes, path: Path, keyPass: string, order: seq<string>, draw: Draw,
                          m: string)
    requires Rooted(nodes) && IsFile(nodes, SeedAt(nodes, path))
    requires Holds(nodes[SeedAt(nodes, path)].content, m) && !crypto.isEncryptedV2(m)
    requires crypto.decrypt(nodes[SeedAt(nodes, path)].content, keyPass).None?
    ensures Load(crypto, nodes, path, keyPass, order, draw) == Done(crypto.keypair(m + "///" + keyPass), [])
  {
    FileLoads(crypto, nodes, path, keyPass, order, draw);
    HeldOnce(nodes[SeedAt(nodes, path)].content, m);
  }

  /** With the wrong password a second-version seed makes the process panic: no other key is returned and
      nothing is written. */
  lemma WrongPasswordChangesNothing(crypto: Crypto, nodes: Nodes, path: Path, keyPass: string, order: seq<string>,
                                    draw: Draw, m: string)
    requires Rooted(nodes) && IsFile(nodes, SeedAt(nodes, path))
    requires Holds(nodes[SeedAt(nodes, path)].content, m) && crypto.isEncryptedV2(m)
    requires crypto.decrypt(nodes[SeedAt(nodes, path)].content, keyPass).None?
    ensures Load(crypto, nodes, path, keyPass, order, draw) == Done(None, [])
  {
    FileLoads(crypto, nodes, path, keyPass, order, draw);
    HeldOnce(nodes[SeedAt(nodes, path)].content, m);
  }

  /** A first-version file is migrated to a seed that holds its mnemonic encrypted, with the key of that mnemonic with
      the password appended; only then is the file deleted, and nothing else changes. */
  lemma HeldMnemonicMigrates(crypto: Crypto, nodes: Nodes, path: Path, keyPass: string, order: seq<string>, draw: Draw,
                             m: string)
    requires crypto.RoundTrips() && Rooted(nodes) && OnlyV1(nodes, path, order) && IsFile(nodes, V1Path(path, order))
    requires Holds(nodes[V1Path(path, order)].content, m) && !crypto.isEncryptedV2(m)
    requires crypto.decrypt(nodes[V1Path(path, order)].content, keyPass).None?
    requires crypto.keypair(m + "///" + keyPass).Some?
    ensures var encrypted := crypto.encrypt(m, keyPass, true, draw.random);
            var both := nodes[path + ["wallet.seed"] := File(encrypted)];
            Load(crypto, nodes, path, keyPass, order, draw)
            == Done(crypto.keypair(m + "///" + keyPass), [both, both - {V1Path(path, order)}])
  {
    HeldOnce(nodes[V1Path(path, order)].content, m);
    V1IsNotSeed(order);
    assert Parent(path + ["wallet.seed"]) == path && path + ["wallet.seed"] != V1Path(path, order);
    MigrateExact(crypto, nodes, V1Path(path, order), path + ["wallet.seed"], keyPass, draw);
  }

  lemma MigrateExact(crypto: Crypto, nodes: Nodes, v1: Path, seed: Path, keyPass: string, draw: Draw)
    requires crypto.RoundTrips() && Rooted(nodes) && IsFile(nodes, v1) && seed != [] && seed != v1
    requires !Exists(nodes, seed) && IsDir(nodes, Parent(seed))
    requires var m := Stripped(nodes[v1].content);
             !crypto.isEncryptedV2(m) && crypto.keypair(m + "///" + keyPass).Some?
    requires crypto.decrypt(nodes[v1].content, keyPass).None?
    ensures var m := Stripped(nodes[v1].content);
            var both := nodes[seed := File(crypto.encrypt(m, keyPass, true, draw.random))];
            Migrate(crypto, nodes, v1, seed, keyPass, draw)
            == Done(crypto.keypair(m + "///" + keyPass), [both, both - {v1}])
  {
  }

  // Which files.

  /** The name of a first-version seed: 72 characters, of which the first eight are these. */
  predicate NamedV1(name: string) {
    |name| == 72 && name[..8] == "73723235"
  }

  /** The first-version file looked for is the first entry with such a name, if any has one. */
  lemma {:induction false} FirstV1Exact(order: seq<string>)
    ensures FirstV1(order).None? ==> forall i :: 0 <= i < |order| ==> !NamedV1(order[i])
    ensures FirstV1(order).Some? ==>
              exists i :: 0 <= i < |order| && order[i] == FirstV1(order).value && NamedV1(order[i]) &&
                forall j :: 0 <= j < i ==> !NamedV1(order[j])
  {
    if order != [] {
      V1NameExact(order[0]);
      if !NamedV1(order[0]) {
        FirstV1Exact(order[1..]);
        if FirstV1(order).Some? {
          var i :| 0 <= i < |order[1..]| && order[1..][i] == FirstV1(order).value && NamedV1(order[1..][i]) &&
            forall j :: 0 <= j < i ==> !NamedV1(order[1..][j]);
          assert forall j :: 0 < j < i + 1 ==> order[j] == order[1..][j - 1];
          assert order[i + 1] == order[1..][i];
        }
      }
    }
  }

  lemma V1NameExact(name: string)
    ensures IsV1Name(name) <==> NamedV1(name)
  {
    assert |V1_PREFIX| == 8;
  }

  /** A new seed goes into the path if that is a directory, or does not exist and its name has no dot after the first
      character or is the parent's; otherwise to the path itself. */
  lemma SeedFileExact(nodes: Nodes, parent: Path, name: string)
    requires Rooted(nodes)
    ensures var path := parent + [name];
            var plain := name == ".." || forall i :: 0 < i < |name| ==> name[i] != '.';
            SeedFile(nodes, path)
            == if IsDir(nodes, path) || (!Exists(nodes, path) && plain) then path + ["wallet.seed"] else path
  {
    if name != "" {
      assert forall i :: 0 < i < |name| ==> name[i] == name[1..][i - 1];
    }
  }

  /** Directories are made from the nearest one that exists down, unless that is a file. */
  lemma {:induction false} DirectoriesExact(nodes: Nodes, p: Path, k: nat)
    requires k <= |p| && p[..k] in nodes && forall j :: k < j <= |p| ==> p[..j] !in nodes
    ensures CreateDirAll(nodes, p).Some? <==> IsDir(nodes, p[..k])
    ensures IsDir(nodes, p[..k]) ==>
              var made := CreateDirAll(nodes, p).value;
              forall q :: q in made <==> q in nodes || exists j :: k < j <= |p| && q == p[..j]
    decreases |p|
  {
    assert p[..|p|] == p;
    if k < |p| {
      assert forall j :: 0 <= j < |p| ==> Parent(p)[..j] == p[..j];
      DirectoriesExact(nodes, Parent(p), k);
    }
  }

  /** A new seed is written exactly when its mnemonic is one, its directories can be made, it is no directory itself,
      and no file is there that must be kept; it then holds the mnemonic encrypted, and no other file is touched. */
  lemma NewSeedExact(crypto: Crypto, nodes: Nodes, path: Path, keyPass: string, draw: Draw, allowOverwrite: bool)
    requires Rooted(nodes)
    ensures var done := NewSeed(crypto, nodes, path, keyPass, draw, allowOverwrite);
            var final, after := SeedFile(nodes, path), Final(nodes, done.steps);
            (done.key.Some? <==>
               crypto.keypair(draw.mnemonic).Some? && CreateDirAll(nodes, Parent(final)).Some? &&
               !IsDir(nodes, final) && (allowOverwrite || !IsFile(nodes, final))) &&
            (done.key.Some? ==>
               done.key == crypto.keypair(draw.mnemonic) &&
               after == CreateDirAll(nodes, Parent(final)).value
                          [final := File(crypto.encrypt(draw.mnemonic, keyPass, false, draw.random))]) &&
            (done.key.None? ==> forall q :: q in nodes ==> q in after && after[q] == nodes[q])
  {
    var final := SeedFile(nodes, path);
    MadeStayAbove(nodes, Parent(final), final);
  }

  /** Making directories touches nothing below them. */
  lemma {:induction false} MadeStayAbove(nodes: Nodes, p: Path, below: Path)
    requires |below| > |p|
    ensures var made := CreateDirAll(nodes, p);
            made.Some? ==> (below in made.value <==> below in nodes)
    decreases |p|
  {
    if !Exists(nodes, p) && p != [] {
      MadeStayAbove(nodes, Parent(p), below);
    }
  }
}
