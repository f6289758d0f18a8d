/** Loading the daemon's identity from a seed file, with the migration of first-version files. */
module WalletLoader {
  import opened Wrappers

  /** A path by its components, from the root. */
  type Path = seq<string>

  datatype Node = Dir | File(content: string)

  type Nodes = map<Path, Node>

  type Keypair = nat

  type Random = nat

  const WALLET_SEED := "wallet.seed"
  const V1_PREFIX := "73723235"
  const V1_NAME_LENGTH := 72

  /** The cryptography, of which only the round trip matters: what encrypts and decrypts a seed, what
      recognises a second-version file, and what derives a key pair from a secret URI, if it is one. */
  datatype Crypto = Crypto(
    encrypt: (string, string, bool, Random) -> string,
    decrypt: (string, string) -> Option<string>,
    isEncryptedV2: string -> bool,
    keypair: string -> Option<Keypair>)
  {
    /** Decrypting with the same password gives back the plaintext, with the password appended for a file
        imported from the first version. */
    ghost predicate RoundTrips() {
      forall plaintext: string, password: string, imported: bool, random: Random ::
        decrypt(encrypt(plaintext, password, imported, random), password)
        == Some(if imported then WithPassword(plaintext, password) else plaintext)
    }
  }

  function WithPassword(mnemonic: string, password: string): string {
    mnemonic + "///" + password
  }

  // The file system.

  predicate Exists(nodes: Nodes, p: Path) {
    p in nodes
  }

  predicate IsDir(nodes: Nodes, p: Path) {
    p in nodes && nodes[p].Dir?
  }

  predicate IsFile(nodes: Nodes, p: Path) {
    p in nodes && nodes[p].File?
  }

  predicate Rooted(nodes: Nodes) {
    IsDir(nodes, [])
  }

  function Parent(p: Path): Path
    requires p != []
  {
    p[..|p| - 1]
  }

  function Join(p: Path, name: string): Path {
    p + [name]
  }

  /** A name has an extension when it has a dot after its first character, and is not the parent's name. */
  predicate HasExtension(p: Path) {
    p != [] && p[|p| - 1] != "" && p[|p| - 1] != ".." && '.' in p[|p| - 1][1..]
  }

  /** Create a directory and those it lies in; none of them may be a file. */
  function CreateDirAll(nodes: Nodes, p: Path): (r: Option<Nodes>)
    ensures r.Some? ==> IsDir(r.value, p) && forall q :: q in nodes ==> q in r.value && r.value[q] == nodes[q]
  {
    if Exists(nodes, p) then (if IsDir(nodes, p) then Some(nodes) else None)
    else if p == [] then None
    else
      match CreateDirAll(nodes, Parent(p))
      case None => None
      case Some(more) => Some(more[p := Dir])
  }

  /** Replace a file's content as one step. */
  function Write(nodes: Nodes, p: Path, content: string): Option<Nodes> {
    if p == [] || IsDir(nodes, p) || !IsDir(nodes, Parent(p)) then None else Some(nodes[p := File(content)])
  }

  // Loading.

  /** A key, unless the process panics, and the file system after each step that changes it. */
  datatype Done = Done(key: Option<Keypair>, steps: seq<Nodes>)

  function Final(nodes: Nodes, steps: seq<Nodes>): Nodes {
    if steps == [] then nodes else steps[|steps| - 1]
  }

  predicate IsWhitespace(c: char) {
    '\t' <= c <= '\r' || c == ' ' || c == '\U{0085}' || c == '\U{00A0}' || c == '\U{1680}' ||
        '\U{2000}' <= c <= '\U{200A}' ||
    c == '\U{2028}' || c == '\U{2029}' || c == '\U{202F}' || c == '\U{205F}' || c == '\U{3000}'
  }

  function TrimStart(s: string, drop: char -> bool): string {
    if s != [] && drop(s[0]) then TrimStart(s[1..], drop) else s
  }

  function TrimEnd(s: string, drop: char -> bool): string {
    if s != [] && drop(s[|s| - 1]) then TrimEnd(s[..|s| - 1], drop) else s
  }

  function Trim(s: string, drop: char -> bool): string {
    TrimEnd(TrimStart(s, drop), drop)
  }

  predicate IsQuote(c: char) {
    c == '"'
  }

  predicate IsLineFeed(c: char) {
    c == '\n'
  }

  predicate IsReturn(c: char) {
    c == '\r'
  }

  function Stripped(content: string): string {
    Trim(Trim(Trim(Trim(content, IsWhitespace), IsQuote), IsLineFeed), IsReturn)
  }

  /** A first-version file's mnemonic; a second-version file panics. */
  function DecryptMnemonic(crypto: Crypto, content: string): Option<string> {
    if crypto.isEncryptedV2(Stripped(content)) then None else Some(Stripped(content))
  }

  /** The key a seed file gives. */
  function KeyOfContent(crypto: Crypto, content: string, keyPass: string): Option<Keypair> {
    match crypto.decrypt(content, keyPass)
    case Some(decrypted) => crypto.keypair(decrypted)
    case None =>
      match DecryptMnemonic(crypto, content)
      case None => None
      case Some(mnemonic) => crypto.keypair(WithPassword(mnemonic, keyPass))
  }

  /** What is drawn at random: a new mnemonic and the encryption's salt and nonce. */
  datatype Draw = Draw(mnemonic: string, random: Random)

  /** Where a new seed is written. */
  function SeedFile(nodes: Nodes, path: Path): (final: Path)
    requires Rooted(nodes)
    ensures final != []
  {
    if IsDir(nodes, path) || (!Exists(nodes, path) && !HasExtension(path)) then Join(path, WALLET_SEED) else path
  }

  function NewSeed(crypto: Crypto, nodes: Nodes, path: Path, keyPass: string, draw: Draw,
                   allowOverwrite: bool): (done: Done)
    requires Rooted(nodes)
    ensures Rooted(Final(nodes, done.steps))
  {
    if crypto.keypair(draw.mnemonic).None? then Done(None, [])
    else
      var final := SeedFile(nodes, path);
      match CreateDirAll(nodes, Parent(final))
      case None => Done(None, [])
      case Some(made) =>
        if !allowOverwrite && IsFile(made, final) then Done(None, [made])
        else
          match Write(made, final, crypto.encrypt(draw.mnemonic, keyPass, false, draw.random))
          case None => Done(None, [made])
          case Some(written) => Done(crypto.keypair(draw.mnemonic), [made, written])
  }

  function Keys(crypto: Crypto, nodes: Nodes, path: Path, keyPass: string, draw: Draw): Done
    requires Rooted(nodes)
  {
    if IsFile(nodes, path) then Done(KeyOfContent(crypto, nodes[path].content, keyPass), [])
    else NewSeed(crypto, nodes, path, keyPass, draw, true)
  }

  /** A directory's entries, in the order they happen to be read. */
  predicate IsListing(nodes: Nodes, path: Path, order: seq<string>) {
    forall i :: 0 <= i < |order| ==> Exists(nodes, Join(path, order[i]))
  }

  predicate IsV1Name(name: string) {
    V1_PREFIX <= name && |name| == V1_NAME_LENGTH
  }

  function FirstV1(order: seq<string>): Option<string> {
    if order == [] then None else if IsV1Name(order[0]) then Some(order[0]) else FirstV1(order[1..])
  }

  /** Write the second-version file, check that both files give one key, and only then delete the first. */
  function Migrate(crypto: Crypto, nodes: Nodes, v1: Path, seed: Path, keyPass: string, draw: Draw): Done
    requires Rooted(nodes)
  {
    if !IsFile(nodes, v1) then Done(None, [])
    else
      var content := nodes[v1].content;
      match DecryptMnemonic(crypto, content)
      case None => Done(None, [])
      case Some(mnemonic) =>
        var encrypted := crypto.encrypt(mnemonic, keyPass, true, draw.random);
        match Write(nodes, seed, encrypted)
        case None => Done(None, [])
        case Some(written) =>
          var verified := KeyOfContent(crypto, encrypted, keyPass);
          if verified.None? || verified != KeyOfContent(crypto, content, keyPass) then Done(None, [written])
          else Done(verified, [written, written - {v1}])
  }

  function Load(crypto: Crypto, nodes: Nodes, path: Path, keyPass: string, order: seq<string>, draw: Draw): Done
    requires Rooted(nodes)
  {
    var seed := Join(path, WALLET_SEED);
    if !IsDir(nodes, path) then Keys(crypto, nodes, path, keyPass, draw)
    else if Exists(nodes, seed) then Keys(crypto, nodes, seed, keyPass, draw)
    else
      match FirstV1(order)
      case Some(name) => Migrate(crypto, nodes, Join(path, name), seed, keyPass, draw)
      case None => NewAndLoaded(crypto, nodes, seed, keyPass, draw)
  }

  /** Make a new seed and load it. */
  function NewAndLoaded(crypto: Crypto, nodes: Nodes, seed: Path, keyPass: string, draw: Draw): Done
    requires Rooted(nodes)
  {
    var made := NewSeed(crypto, nodes, seed, keyPass, draw, true);
    if made.key.None? then made
    else
      var loaded := Keys(crypto, Final(nodes, made.steps), seed, keyPass, draw);
      Done(loaded.key, made.steps + loaded.steps)
  }

  // The same, step by step over a file system.

  class FileSystem {
    var nodes: Nodes
    /** The file system after each step that changed it. */
    ghost var steps: seq<Nodes>

    constructor (nodes: Nodes)
      ensures this.nodes == nodes && steps == []
    {
      this.nodes := nodes;
      steps := [];
    }

    method MakeDirectory(p: Path) returns (ok: bool)
      modifies this
      ensures ok == CreateDirAll(old(nodes), p).Some?
      ensures if ok then nodes == CreateDirAll(old(nodes), p).value && steps == old(steps) + [nodes]
              else nodes == old(nodes) && steps == old(steps)
    {
      var made := CreateDirAll(nodes, p);
      ok := made.Some?;
      if ok {
        nodes := made.value;
        steps := steps + [nodes];
      }
    }

    method WriteFile(p: Path, content: string) returns (ok: bool)
      modifies this
      ensures ok == Write(old(nodes), p, content).Some?
      ensures if ok then nodes == Write(old(nodes), p, content).value && steps == old(steps) + [nodes]
              else nodes == old(nodes) && steps == old(steps)
    {
      var written := Write(nodes, p, content);
      ok := written.Some?;
      if ok {
        nodes := written.value;
        steps := steps + [nodes];
      }
    }

    method RemoveFile(p: Path)
      requires IsFile(nodes, p)
      modifies this
      ensures nodes == old(nodes) - {p} && steps == old(steps) + [nodes]
    {
      nodes := nodes - {p};
      steps := steps + [nodes];
    }
  }

  /** The loader; a key it does not return is a panic. */
  class Loader {
    const crypto: Crypto
    const fs: FileSystem

    constructor (crypto: Crypto, fs: FileSystem)
      ensures this.crypto == crypto && this.fs == fs
    {
      this.crypto := crypto;
      this.fs := fs;
    }

    /** Write a new seed, making the directories it needs. */
    method WriteMnemonic(path: Path, keyPass: string, draw: Draw, allowOverwrite: bool) returns (key: Option<Keypair>)
      requires Rooted(fs.nodes)
      modifies fs
      ensures var done := NewSeed(crypto, old(fs.nodes), path, keyPass, draw, allowOverwrite);
              key == done.key && fs.steps == old(fs.steps) + done.steps && fs.nodes == Final(old(fs.nodes), done.steps)
    {
      var encrypted := crypto.encrypt(draw.mnemonic, keyPass, false, draw.random);
      var keypair := crypto.keypair(draw.mnemonic);
      if keypair.None? {
        return None;
      }
      var final := path;
      if IsDir(fs.nodes, path) || (!Exists(fs.nodes, path) && !HasExtension(path)) {
        final := Join(path, WALLET_SEED);
      }
      var made := fs.MakeDirectory(Parent(final));
      if !made {
        return None;
      }
      if !allowOverwrite && IsFile(fs.nodes, final) {
        return None;
      }
      var written := fs.WriteFile(final, encrypted);
      key := if written then keypair else None;
    }

    method GetKeys(path: Path, keyPass: string, draw: Draw) returns (key: Option<Keypair>)
      requires Rooted(fs.nodes)
      modifies fs
      ensures var done := Keys(crypto, old(fs.nodes), path, keyPass, draw);
              key == done.key && fs.steps == old(fs.steps) + done.steps && fs.nodes == Final(old(fs.nodes), done.steps)
    {
      if IsFile(fs.nodes, path) {
        var content := fs.nodes[path].content;
        var decrypted := crypto.decrypt(content, keyPass);
        if decrypted.None? {
          var mnemonic := DecryptMnemonic(crypto, content);
          if mnemonic.None? {
            return None;
          }
          decrypted := Some(WithPassword(mnemonic.value, keyPass));
        }
        key := crypto.keypair(decrypted.value);
      } else {
        key := WriteMnemonic(path, keyPass, draw, true);
      }
    }

    /** Look through a directory's entries for a first-version seed. */
    method FindV1(order: seq<string>) returns (found: Option<string>)
      ensures found == FirstV1(order)
    {
      found := None;
      for i := 0 to |order|
        invariant FirstV1(order) == FirstV1(order[i..])
      {
        if V1_PREFIX <= order[i] && |order[i]| == V1_NAME_LENGTH {
          return Some(order[i]);
        }
        assert order[i..][1..] == order[i + 1..];
      }
    }

    method MigrateV1(v1: Path, seed: Path, keyPass: string, draw: Draw) returns (key: Option<Keypair>)
      requires Rooted(fs.nodes) && v1 != seed
      modifies fs
      ensures var done := Migrate(crypto, old(fs.nodes), v1, seed, keyPass, draw);
              key == done.key && fs.steps == old(fs.steps) + done.steps && fs.nodes == Final(old(fs.nodes), done.steps)
    {
      if !IsFile(fs.nodes, v1) {
        return None;
      }
      var content := fs.nodes[v1].content;
      var mnemonic := DecryptMnemonic(crypto, content);
      if mnemonic.None? {
        return None;
      }
      var written := fs.WriteFile(seed, crypto.encrypt(mnemonic.value, keyPass, true, draw.random));
      if !written {
        return None;
      }
      var verified := GetKeys(seed, keyPass, draw);
      if verified.None? {
        return None;
      }
      var v1Key := GetKeys(v1, keyPass, draw);
      if v1Key != verified {
        return None;
      }
      fs.RemoveFile(v1);
      key := GetKeys(seed, keyPass, draw);
    }

    method LoadSeed(path: Path, keyPass: string, order: seq<string>, draw: Draw) returns (key: Option<Keypair>)
      requires Rooted(fs.nodes) && IsListing(fs.nodes, path, order)
      modifies fs
      ensures var done := Load(crypto, old(fs.nodes), path, keyPass, order, draw);
              key == done.key && fs.steps == old(fs.steps) + done.steps && fs.nodes == Final(old(fs.nodes), done.steps)
    {
      ghost var load := Load(crypto, fs.nodes, path, keyPass, order, draw);
      if !Exists(fs.nodes, path) || IsFile(fs.nodes, path) {
        assert load == Keys(crypto, fs.nodes, path, keyPass, draw);
        key := GetKeys(path, keyPass, draw);
        return;
      }
      var seed := Join(path, WALLET_SEED);
      if Exists(fs.nodes, seed) {
        assert load == Keys(crypto, fs.nodes, seed, keyPass, draw);
        key := GetKeys(seed, keyPass, draw);
        return;
      }
      var v1 := FindV1(order);
      if v1.Some? {
        V1IsNotSeed(order);
        assert load == Migrate(crypto, fs.nodes, Join(path, v1.value), seed, keyPass, draw);
        key := MigrateV1(Join(path, v1.value), seed, keyPass, draw);
        return;
      }
      assert load == NewAndLoaded(crypto, fs.nodes, seed, keyPass, draw);
      key := MakeAndLoad(seed, keyPass, draw);
    }

    method MakeAndLoad(seed: Path, keyPass: string, draw: Draw) returns (key: Option<Keypair>)
      requires Rooted(fs.nodes)
      modifies fs
      ensures var done := NewAndLoaded(crypto, old(fs.nodes), seed, keyPass, draw);
              key == done.key && fs.steps == old(fs.steps) + done.steps && fs.nodes == Final(old(fs.nodes), done.steps)
    {
      key := WriteMnemonic(seed, keyPass, draw, true);
      if key.Some? {
        key := GetKeys(seed, keyPass, draw);
      }
    }
  }

  lemma {:induction false} V1IsNotSeed(order: seq<string>)
    requires FirstV1(order).Some?
    ensures IsV1Name(FirstV1(order).value) && FirstV1(order).value in order && FirstV1(order).value != WALLET_SEED
  {
    if !IsV1Name(order[0]) {
      V1IsNotSeed(order[1..]);
    }
  }
}
