/** The daemon's identity: what loading its seed again gives. */
module WalletIdentity {
  import opened Wrappers
  import opened WalletLoader

  function Seed(path: Path): Path {
    Join(path, WALLET_SEED)
  }

  /** A new seed is where the next load looks for it, and gives the key that was returned for it. */
  lemma NewSeedIsFound(crypto: Crypto, nodes: Nodes, path: Path, keyPass: string, draw: Draw)
    requires crypto.RoundTrips() && Rooted(nodes)
    requires NewSeed(crypto, nodes, path, keyPass, draw, true).key.Some?
    ensures var done := NewSeed(crypto, nodes, path, keyPass, draw, true);
            var after := Final(nodes, done.steps);
            var final := SeedFile(nodes, path);
            IsFile(after, final) && KeyOfContent(crypto, after[final].content, keyPass) == done.key &&
            IsDir(after, Parent(final)) &&
            forall q :: q in nodes && q != final ==> q in after && after[q] == nodes[q]
  {
  }

  /** Loading a file gives its key and changes nothing. */
  lemma FileLoads(crypto: Crypto, nodes: Nodes, path: Path, keyPass: string, order: seq<string>, draw: Draw)
    requires Rooted(nodes)
    requires if IsDir(nodes, path) then IsFile(nodes, Seed(path)) else IsFile(nodes, path)
    ensures var file := if IsDir(nodes, path) then Seed(path) else path;
            Load(crypto, nodes, path, keyPass, order, draw)
            == Done(KeyOfContent(crypto, nodes[file].content, keyPass), [])
  {
  }

  /** After a first load that starts from nothing, the seed it made is loaded. */
  lemma NewIdentityIsKept(crypto: Crypto, nodes: Nodes, path: Path, keyPass: string, order: seq<string>, draw: Draw,
                          order': seq<string>, draw': Draw)
    requires crypto.RoundTrips() && Rooted(nodes) && !Exists(nodes, path)
    requires Load(crypto, nodes, path, keyPass, order, draw).key.Some?
    ensures var done := Load(crypto, nodes, path, keyPass, order, draw);
            var after := Final(nodes, done.steps);
            Rooted(after) && Load(crypto, after, path, keyPass, order', draw') == Done(done.key, [])
  {
    NewSeedIsFound(crypto, nodes, path, keyPass, draw);
    var after := Final(nodes, NewSeed(crypto, nodes, path, keyPass, draw, true).steps);
    if !HasExtension(path) {
      assert Parent(Seed(path)) == path;
    } else {
      assert SeedFile(nodes, path) == path;
    }
    FileLoads(crypto, after, path, keyPass, order', draw');
  }

  /** After a load from a directory without a seed, the seed it made is loaded. */
  lemma EmptyDirectoryIsKept(crypto: Crypto, nodes: Nodes, path: Path, keyPass: string, order: seq<string>, draw: Draw,
                             order': seq<string>, draw': Draw)
    requires crypto.RoundTrips() && Rooted(nodes) && IsDir(nodes, path) && !Exists(nodes, Seed(path)) &&
        FirstV1(order).None?
    requires Load(crypto, nodes, path, keyPass, order, draw).key.Some?
    ensures var done := Load(crypto, nodes, path, keyPass, order, draw);
            var after := Final(nodes, done.steps);
            Rooted(after) && Load(crypto, after, path, keyPass, order', draw') == Done(done.key, [])
  {
    var made := NewSeed(crypto, nodes, Seed(path), keyPass, draw, true);
    NewSeedIsFound(crypto, nodes, Seed(path), keyPass, draw);
    assert '.' in WALLET_SEED[1..] by {
      assert WALLET_SEED[1..][5] == '.';
    }
    assert HasExtension(Seed(path)) && SeedFile(nodes, Seed(path)) == Seed(path);
    var after := Final(nodes, made.steps);
    assert path != Seed(path) by {
      assert |path| != |Seed(path)|;
    }
    assert IsDir(after, path);
    assert made.steps + [] == made.steps;
    FileLoads(crypto, after, path, keyPass, order', draw');
  }

  /** A migration succeeds exactly when the first-version file is a readable file that is not of the second
      version, gives a key, and gives it through the mnemonic. */
  predicate Migrates(crypto: Crypto, content: string, keyPass: string) {
    var mnemonic := DecryptMnemonic(crypto, content);
    mnemonic.Some? &&
    crypto.keypair(WithPassword(mnemonic.value, keyPass)).Some? &&
    KeyOfContent(crypto, content, keyPass) == crypto.keypair(WithPassword(mnemonic.value, keyPass))
  }

  /** The directory holds a first-version file that the listing leads to, and no seed. */
  predicate OnlyV1(nodes: Nodes, path: Path, order: seq<string>) {
    IsDir(nodes, path) && !Exists(nodes, Seed(path)) && FirstV1(order).Some?
  }

  function V1Path(path: Path, order: seq<string>): Path
    requires FirstV1(order).Some?
  {
    Join(path, FirstV1(order).value)
  }

  /** Migration gives the key that the first-version file alone would have given, and gives one exactly when
      that file migrates; at every step, even if the process stops there, loading gives that same key. */
  lemma MigrationKeepsIdentity(crypto: Crypto, nodes: Nodes, path: Path, keyPass: string, order: seq<string>,
                               draw: Draw,
                               order': seq<string>, draw': Draw)
    requires crypto.RoundTrips() && Rooted(nodes) && OnlyV1(nodes, path, order)
    ensures var v1 := V1Path(path, order);
            var done := Load(crypto, nodes, path, keyPass, order, draw);
            (done.key.Some? <==> IsFile(nodes, v1) && Migrates(crypto, nodes[v1].content, keyPass)) &&
            (done.key.Some? ==>
               done.key == Keys(crypto, nodes, v1, keyPass, draw).key &&
               |done.steps| == 2 && v1 in done.steps[0] && v1 !in done.steps[1] &&
               forall k :: 0 <= k < |done.steps| ==>
                 Rooted(done.steps[k]) &&
                 Load(crypto, done.steps[k], path, keyPass, order', draw') == Done(done.key, []))
  {
    V1IsNotSeed(order);
    var v1 := V1Path(path, order);
    var done := Load(crypto, nodes, path, keyPass, order, draw);
    assert v1[|v1| - 1] != Seed(path)[|path|];
    assert Parent(Seed(path)) == path;
    assert |path| != |v1| == |Seed(path)| && v1 != [];
    if done.key.Some? {
      FileLoads(crypto, done.steps[0], path, keyPass, order', draw');
      FileLoads(crypto, done.steps[1], path, keyPass, order', draw');
    }
  }

  /** Whenever loading returns a key and the seed is not itself a directory, loading again with the same
      password returns the same key and changes nothing, in whatever order entries are read and whatever is
      drawn. */
  lemma IdentityIsStable(crypto: Crypto, nodes: Nodes, path: Path, keyPass: string, order: seq<string>, draw: Draw,
                         order': seq<string>, draw': Draw)
    requires crypto.RoundTrips() && Rooted(nodes) && !IsDir(nodes, Seed(path))
    requires Load(crypto, nodes, path, keyPass, order, draw).key.Some?
    ensures var done := Load(crypto, nodes, path, keyPass, order, draw);
            var after := Final(nodes, done.steps);
            Rooted(after) && Load(crypto, after, path, keyPass, order', draw') == Done(done.key, [])
  {
    if !Exists(nodes, path) {
      NewIdentityIsKept(crypto, nodes, path, keyPass, order, draw, order', draw');
    } else if IsFile(nodes, path) {
      FileLoads(crypto, nodes, path, keyPass, order, draw);
      FileLoads(crypto, nodes, path, keyPass, order', draw');
    } else if Exists(nodes, Seed(path)) {
      FileLoads(crypto, nodes, path, keyPass, order, draw);
      FileLoads(crypto, nodes, path, keyPass, order', draw');
    } else if FirstV1(order).None? {
      EmptyDirectoryIsKept(crypto, nodes, path, keyPass, order, draw, order', draw');
    } else {
      MigrationKeepsIdentity(crypto, nodes, path, keyPass, order, draw, order', draw');
    }
  }

  /** A seed that is itself a directory is never read: each load draws a new identity. */
  lemma DirectorySeedForgets(crypto: Crypto, nodes: Nodes, path: Path, keyPass: string, order: seq<string>, draw: Draw)
    requires Rooted(nodes) && IsDir(nodes, path) && IsDir(nodes, Seed(path))
    ensures var done := Load(crypto, nodes, path, keyPass, order, draw);
            var after := Final(nodes, done.steps);
            Rooted(after) && IsDir(after, path) && IsDir(after, Seed(path)) &&
            done.key == if IsDir(nodes, Seed(Seed(path))) then None else crypto.keypair(draw.mnemonic)
  {
    assert Parent(Seed(Seed(path))) == Seed(path);
    assert |Seed(Seed(path))| != |Seed(path)| && |Seed(Seed(path))| != |path|;
  }

  /** Given two draws that make different keys, loading again returns the same key with either exactly when
      the seed is not a directory. */
  lemma StableExactlyWhenNotADirectory(crypto: Crypto, nodes: Nodes, path: Path, keyPass: string, order: seq<string>,
                                       draw: Draw,
                                       order': seq<string>, a: Draw, b: Draw)
    requires crypto.RoundTrips() && Rooted(nodes) && (IsDir(nodes, Seed(path)) ==> IsDir(nodes, path))
    requires Load(crypto, nodes, path, keyPass, order, draw).key.Some?
    requires crypto.keypair(a.mnemonic).Some? && crypto.keypair(b.mnemonic).Some?
    requires crypto.keypair(a.mnemonic) != crypto.keypair(b.mnemonic)
    ensures var done := Load(crypto, nodes, path, keyPass, order, draw);
            var after := Final(nodes, done.steps);
            Rooted(after) &&
            (Load(crypto, after, path, keyPass, order', a).key == done.key &&
             Load(crypto, after, path, keyPass, order', b).key == done.key <==>
             !IsDir(nodes, Seed(path)))
  {
    var done := Load(crypto, nodes, path, keyPass, order, draw);
    var after := Final(nodes, done.steps);
    if IsDir(nodes, Seed(path)) {
      DirectorySeedForgets(crypto, nodes, path, keyPass, order, draw);
      DirectorySeedForgets(crypto, after, path, keyPass, order', a);
      DirectorySeedForgets(crypto, after, path, keyPass, order', b);
    } else {
      IdentityIsStable(crypto, nodes, path, keyPass, order, draw, order', a);
      IdentityIsStable(crypto, nodes, path, keyPass, order, draw, order', b);
    }
  }

  /** A file system on which two loads return different keys. */
  lemma IdentityCanBeLost(crypto: Crypto, keyPass: string, a: Draw, b: Draw)
    requires crypto.keypair(a.mnemonic).Some? && crypto.keypair(b.mnemonic).Some?
    requires crypto.keypair(a.mnemonic) != crypto.keypair(b.mnemonic)
    ensures var nodes: Nodes := map[[] := Dir, ["store"] := Dir, ["store", "wallet.seed"] := Dir];
            var done := Load(crypto, nodes, ["store"], keyPass, ["wallet.seed"], a);
            var after := Final(nodes, done.steps);
            done.key.Some? && Rooted(after) &&
            Load(crypto, after, ["store"], keyPass, ["wallet.seed"], b).key.Some? &&
            Load(crypto, after, ["store"], keyPass, ["wallet.seed"], b).key != done.key
  {
    var nodes: Nodes := map[[] := Dir, ["store"] := Dir, ["store", "wallet.seed"] := Dir];
    var path := ["store"];
    assert Seed(path) == ["store", "wallet.seed"];
    DirectorySeedForgets(crypto, nodes, path, keyPass, ["wallet.seed"], a);
    var after := Final(nodes, Load(crypto, nodes, path, keyPass, ["wallet.seed"], a).steps);
    DirectorySeedForgets(crypto, after, path, keyPass, ["wallet.seed"], b);
  }
}
