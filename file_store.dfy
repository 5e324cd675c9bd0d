/**
 * The browser file handler (src/fileHandler.js): files are kept in
 * `localStorage` under the key `'file:' + name`. `localStorage` is the map
 * `storage`, which the operations update in place.
 */
module FileStore {
  import opened Text

  const Prefix := "file:"

  /** The storage key of the file `name`. */
  function Key(name: string): (k: string)
    ensures StartsWith(k, Prefix) && k[|Prefix|..] == name
  {
    Prefix + name
  }

  lemma KeyInjective(a: string, b: string)
    ensures Key(a) == Key(b) <==> a == b
  {
    if Key(a) == Key(b) {
      assert a == Key(a)[|Prefix|..];
    }
  }

  /** `localStorage.getItem('file:' + name) || ''` */
  function Load(storage: map<string, string>, name: string): (content: string) {
    if Key(name) in storage then storage[Key(name)] else ""
  }

  /** The names `listFiles` reports: the prefixed keys with the prefix removed. */
  function FileNames(storage: map<string, string>): (names: set<string>) {
    set k | k in storage && StartsWith(k, Prefix) :: k[|Prefix|..]
  }

  /** A name is listed iff its key is stored. */
  lemma ListedIffStored(storage: map<string, string>, name: string)
    ensures name in FileNames(storage) <==> Key(name) in storage
  {
    if name in FileNames(storage) {
      var k :| k in storage && StartsWith(k, Prefix) && k[|Prefix|..] == name;
      assert k == Prefix + k[|Prefix|..];
    }
  }

  /** After saving `c` under `n`, loading `n` gives `c` (`''` when `c` is empty) and other names are unaffected. */
  lemma LoadAfterSave(storage: map<string, string>, n: string, c: string, m: string)
    ensures Load(storage[Key(n) := c], n) == c
    ensures m != n ==> Load(storage[Key(n) := c], m) == Load(storage, m)
  {
    KeyInjective(n, m);
  }

  /** Saving twice under one name: the last content wins. */
  lemma SaveOverwrites(storage: map<string, string>, n: string, c1: string, c2: string)
    ensures storage[Key(n) := c1][Key(n) := c2] == storage[Key(n) := c2]
    ensures Load(storage[Key(n) := c1][Key(n) := c2], n) == c2
  {
  }

  /** After deleting `n`, loading it gives `''` and other names are unaffected. */
  lemma LoadAfterDelete(storage: map<string, string>, n: string, m: string)
    ensures Load(storage - {Key(n)}, n) == ""
    ensures m != n ==> Load(storage - {Key(n)}, m) == Load(storage, m)
  {
    KeyInjective(n, m);
  }

  /** Loading a name that was never stored gives `''`. */
  lemma LoadMissing(storage: map<string, string>, n: string)
    requires n !in FileNames(storage)
    ensures Load(storage, n) == ""
  {
    ListedIffStored(storage, n);
  }

  /** Saving adds exactly the saved name to the listing. */
  lemma NamesAfterSave(storage: map<string, string>, n: string, c: string)
    ensures FileNames(storage[Key(n) := c]) == FileNames(storage) + {n}
  {
    var after := storage[Key(n) := c];
    forall m ensures m in FileNames(after) <==> m in FileNames(storage) + {n} {
      ListedIffStored(after, m);
      ListedIffStored(storage, m);
      KeyInjective(n, m);
    }
  }

  /** Deleting removes exactly the deleted name from the listing. */
  lemma NamesAfterDelete(storage: map<string, string>, n: string)
    ensures FileNames(storage - {Key(n)}) == FileNames(storage) - {n}
  {
    var after := storage - {Key(n)};
    forall m ensures m in FileNames(after) <==> m in FileNames(storage) - {n} {
      ListedIffStored(after, m);
      ListedIffStored(storage, m);
      KeyInjective(n, m);
    }
  }

  /** Keys without the prefix never show up in the listing. */
  lemma UnprefixedKeysIgnored(storage: map<string, string>, k: string, v: string)
    requires !StartsWith(k, Prefix)
    ensures FileNames(storage[k := v]) == FileNames(storage - {k})
  {
  }

  predicate NoDuplicates<T(==)>(s: seq<T>) {
    forall i, j :: 0 <= i < j < |s| ==> s[i] != s[j]
  }

  /** The `FileHandler` object, over its `localStorage`. */
  class FileHandler {
    var storage: map<string, string>

    constructor (initial: map<string, string>)
      ensures storage == initial
    {
      storage := initial;
    }

    /** `saveFile(name, content)`: `setItem` of the prefixed key. */
    method SaveFile(name: string, content: string)
      modifies this
      ensures storage == old(storage)[Key(name) := content]
    {
      storage := storage[Key(name) := content];
    }

    /** `loadFile(name)` */
    method LoadFile(name: string) returns (content: string)
      ensures content == Load(storage, name)
      ensures Key(name) !in storage ==> content == ""
    {
      if Key(name) in storage {
        content := storage[Key(name)];
      } else {
        content := "";
      }
    }

    /**
     * `listFiles()`: the stored names, each once, in the (unspecified) order
     * in which the keys are enumerated.
     */
    method ListFiles() returns (names: seq<string>)
      ensures NoDuplicates(names)
      ensures forall n :: n in names <==> Key(n) in storage
      ensures forall n :: n in names <==> n in FileNames(storage)
    {
      names := [];
      var keys := storage.Keys;
      while keys != {}
        invariant keys <= storage.Keys
        invariant NoDuplicates(names)
        invariant forall n :: n in names <==> Key(n) in storage && Key(n) !in keys
        decreases keys
      {
        var k :| k in keys;
        if StartsWith(k, Prefix) {
          var n := k[|Prefix|..];
          assert Key(n) == k;
          forall m | m in names ensures m != n {
            KeyInjective(m, n);
          }
          names := names + [n];
          forall m ensures m in names <==> Key(m) in storage && Key(m) !in keys - {k} {
            KeyInjective(m, n);
          }
        } else {
          forall m ensures Key(m) != k {
          }
        }
        keys := keys - {k};
      }
      forall n ensures n in names <==> n in FileNames(storage) {
        ListedIffStored(storage, n);
      }
    }

    /** `deleteFile(name)`: `removeItem` of the prefixed key. */
    method DeleteFile(name: string)
      modifies this
      ensures storage == old(storage) - {Key(name)}
    {
      storage := storage - {Key(name)};
    }
  }
}
