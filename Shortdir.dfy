/**
 * shortdir_del: the entries of the shortdir file are `directory shortname`
 * lines; deleting a short name rewrites the file with every entry whose
 * short name is a different one.
 */
module Shortdir {
  import opened Sequences

  /** One line of the shortdir file: the text before the first space, and the rest of the line. */
  datatype Entry = Entry(dir: string, short: string)

  /** The entries that survive deleting name, in file order: none of them has that short name. */
  function Keep(entries: seq<Entry>, name: string): (r: seq<Entry>)
    ensures |r| <= |entries|
    ensures forall e | e in r :: e.short != name
  {
    if entries == [] then []
    else if entries[0].short != name then [entries[0]] + Keep(entries[1..], name)
    else Keep(entries[1..], name)
  }

  /** The loop of shortdir_del: copy into temp.txt each entry whose short name is not the one deleted. */
  method Delete(entries: seq<Entry>, shortName: string) returns (kept: seq<Entry>)
    ensures kept == Keep(entries, shortName)
  {
    kept := [];
    var i := 0;
    while i < |entries|
      invariant 0 <= i <= |entries|
      invariant kept == Keep(entries[..i], shortName)
    {
      var entry := entries[i];
      if shortName != entry.short {
        kept := kept + [entry];
      }
      KeepAppend(entries[..i], [entry], shortName);
      assert entries[..i + 1] == entries[..i] + [entry];
      i := i + 1;
    }
    assert entries[..i] == entries;
  }

  /** Deleting from a file read in two parts deletes from each part. */
  lemma {:induction false} KeepAppend(a: seq<Entry>, b: seq<Entry>, name: string)
    ensures Keep(a + b, name) == Keep(a, name) + Keep(b, name)
    decreases |a|
  {
    if a == [] {
      assert a + b == b;
    } else {
      assert (a + b)[0] == a[0];
      assert (a + b)[1..] == a[1..] + b;
      KeepAppend(a[1..], b, name);
    }
  }

  /**
   * After the delete every entry with another short name is still there,
   * and the entries keep their order.
   */
  lemma {:induction false} KeepExact(entries: seq<Entry>, name: string)
    ensures forall e | e in entries && e.short != name :: e in Keep(entries, name)
    ensures Subsequence(Keep(entries, name), entries)
  {
    if entries != [] {
      KeepExact(entries[1..], name);
      assert forall e | e in entries :: e == entries[0] || e in entries[1..];
      var rest := Keep(entries[1..], name);
      assert rest == [] || Subsequence(rest, entries[1..]);
      if entries[0].short != name {
        assert ([entries[0]] + rest)[1..] == rest;
      }
    }
  }

  /** The short names of the entries, in file order. */
  function Shorts(entries: seq<Entry>): (r: seq<string>)
    ensures |r| == |entries|
  {
    seq(|entries|, i requires 0 <= i < |entries| => entries[i].short)
  }

  /** The count kept is the count of entries less the occurrences of the deleted short name. */
  lemma {:induction false} KeepCount(entries: seq<Entry>, name: string)
    ensures |Keep(entries, name)| == |entries| - multiset(Shorts(entries))[name]
  {
    if entries != [] {
      KeepCount(entries[1..], name);
      assert Shorts(entries) == [entries[0].short] + Shorts(entries[1..]);
    }
  }

  /** Deleting the same short name twice changes nothing more, and a name no entry has changes nothing. */
  lemma {:induction false} KeepIdempotent(entries: seq<Entry>, name: string)
    ensures Keep(Keep(entries, name), name) == Keep(entries, name)
    ensures (forall e | e in entries :: e.short != name) ==> Keep(entries, name) == entries
  {
    if entries != [] {
      KeepIdempotent(entries[1..], name);
      assert forall e | e in entries[1..] :: e in entries;
      if entries[0].short != name {
        assert ([entries[0]] + Keep(entries[1..], name))[1..] == Keep(entries[1..], name);
        assert entries == [entries[0]] + entries[1..];
      }
    }
  }
}
