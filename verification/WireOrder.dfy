/**
  Facts about the order struct fields travel in: it is the stable sort by version, and
  cutting a struct back to an older version keeps a leading run of it.
 */
module WireOrder {
  import opened Ast
  import opened Schema

  predicate SortedByVersion(fields: seq<StructField>) {
    forall i, j :: 0 <= i < j < |fields| ==> fields[i].minVersion <= fields[j].minVersion
  }

  /** The fields introduced at exactly this version, in order. */
  function AtVersion(fields: seq<StructField>, version: nat): seq<StructField> {
    if fields == [] then []
    else (if fields[0].minVersion == version then [fields[0]] else []) + AtVersion(fields[1..], version)
  }

  /** The fields a schema as old as `version` has. */
  function UpTo(fields: seq<StructField>, version: nat): seq<StructField> {
    if fields == [] then []
    else (if fields[0].minVersion <= version then [fields[0]] else []) + UpTo(fields[1..], version)
  }

  // ----- WireFields is the stable sort -----

  lemma {:induction false} InsertKeeps(f: StructField, rest: seq<StructField>)
    ensures multiset(InsertField(f, rest)) == multiset([f] + rest)
  {
    if rest != [] && f.minVersion > rest[0].minVersion {
      InsertKeeps(f, rest[1..]);
      assert rest == [rest[0]] + rest[1..];
    }
  }

  lemma {:induction false} InsertMembers(f: StructField, rest: seq<StructField>)
    ensures forall i :: 0 <= i < |InsertField(f, rest)| ==>
      InsertField(f, rest)[i] == f || InsertField(f, rest)[i] in rest
  {
    if rest != [] && f.minVersion > rest[0].minVersion {
      InsertMembers(f, rest[1..]);
    }
  }

  lemma {:induction false} InsertSorts(f: StructField, rest: seq<StructField>)
    requires SortedByVersion(rest)
    ensures SortedByVersion(InsertField(f, rest))
  {
    if rest != [] && f.minVersion > rest[0].minVersion {
      var tail := InsertField(f, rest[1..]);
      InsertSorts(f, rest[1..]);
      InsertMembers(f, rest[1..]);
      var r := InsertField(f, rest);
      assert r == [rest[0]] + tail;
      forall i, j | 0 <= i < j < |r| ensures r[i].minVersion <= r[j].minVersion {
        assert r[j] == tail[j - 1] && (i > 0 ==> r[i] == tail[i - 1]);
      }
    }
  }

  lemma {:induction false} InsertStable(f: StructField, rest: seq<StructField>, version: nat)
    ensures AtVersion(InsertField(f, rest), version) == AtVersion([f] + rest, version)
  {
    if rest != [] && f.minVersion > rest[0].minVersion {
      InsertStable(f, rest[1..], version);
      assert ([f] + rest[1..])[1..] == rest[1..] && ([f] + rest)[1..] == rest;
      assert InsertField(f, rest)[1..] == InsertField(f, rest[1..]);
    } else {
      assert InsertField(f, rest) == [f] + rest;
    }
  }

  /** Same fields, by non-decreasing version, declaration order kept within a version. */
  lemma {:induction false} WireIsStableSort(fields: seq<StructField>)
    ensures SortedByVersion(WireFields(fields))
    ensures multiset(WireFields(fields)) == multiset(fields)
    ensures forall version: nat :: AtVersion(WireFields(fields), version) == AtVersion(fields, version)
  {
    if fields != [] {
      var rest := WireFields(fields[1..]);
      WireIsStableSort(fields[1..]);
      InsertSorts(fields[0], rest);
      InsertKeeps(fields[0], rest);
      assert fields == [fields[0]] + fields[1..];
      forall version: nat ensures AtVersion(WireFields(fields), version) == AtVersion(fields, version) {
        InsertStable(fields[0], rest, version);
        assert ([fields[0]] + rest)[1..] == rest;
      }
    }
  }

  lemma {:induction false} AtVersionMembers(fields: seq<StructField>, version: nat)
    ensures forall f :: f in AtVersion(fields, version) <==> f in fields && f.minVersion == version
  {
    if fields != [] { AtVersionMembers(fields[1..], version); }
  }

  /** Those two facts leave no freedom: any such order is the one the generator uses. */
  lemma {:induction false} StableSortUnique(a: seq<StructField>, b: seq<StructField>)
    requires SortedByVersion(a) && SortedByVersion(b)
    requires forall version: nat :: AtVersion(a, version) == AtVersion(b, version)
    ensures a == b
  {
    assert a != [] ==> AtVersion(a, a[0].minVersion)[0] == a[0];
    assert b != [] ==> AtVersion(b, b[0].minVersion)[0] == b[0];
    if a != [] && b != [] {
      var va, vb := a[0].minVersion, b[0].minVersion;
      AtVersionMembers(a, vb);
      AtVersionMembers(b, va);
      assert a[0] in AtVersion(b, va) && b[0] in AtVersion(a, vb);
      assert va == vb;
      assert AtVersion(a, va)[0] == a[0] && AtVersion(b, va)[0] == b[0];
      forall version: nat ensures AtVersion(a[1..], version) == AtVersion(b[1..], version) {
        var head := if version == va then [a[0]] else [];
        assert AtVersion(a, version) == head + AtVersion(a[1..], version);
        assert AtVersion(b, version) == head + AtVersion(b[1..], version);
        assert (head + AtVersion(a[1..], version))[|head|..] == AtVersion(a[1..], version);
      }
      StableSortUnique(a[1..], b[1..]);
    }
  }

  // ----- versions -----

  lemma {:induction false} VersionIsMax(fields: seq<StructField>)
    ensures forall f <- fields :: f.minVersion <= Version(fields)
    ensures fields != [] ==> exists f <- fields :: f.minVersion == Version(fields)
  {
    if fields != [] {
      VersionIsMax(fields[1..]);
      if fields[0].minVersion <= Version(fields[1..]) && fields[1..] != [] {
        var f :| f in fields[1..] && f.minVersion == Version(fields[1..]);
        assert f in fields;
      } else {
        assert fields[0] in fields;
      }
    }
  }

  lemma {:induction false} ReadCountSplits(wire: seq<StructField>, version: nat)
    requires SortedByVersion(wire)
    ensures var n := ReadCount(wire, version);
            && (forall i :: 0 <= i < n ==> wire[i].minVersion <= version)
            && (forall i :: n <= i < |wire| ==> wire[i].minVersion > version)
  {
    if wire != [] && wire[0].minVersion <= version {
      ReadCountSplits(wire[1..], version);
    }
  }

  /** A count with everything before it in and the rest out is the count. */
  lemma {:induction false} ReadCountIs(wire: seq<StructField>, version: nat, n: nat)
    requires n <= |wire|
    requires forall i :: 0 <= i < n ==> wire[i].minVersion <= version
    requires n < |wire| ==> wire[n].minVersion > version
    ensures ReadCount(wire, version) == n
  {
    if n > 0 {
      assert wire[0].minVersion <= version;
      ReadCountIs(wire[1..], version, n - 1);
    }
  }

  // ----- cutting a struct back -----

  lemma {:induction false} UpToMembers(fields: seq<StructField>, k: nat)
    ensures forall f :: f in UpTo(fields, k) <==> f in fields && f.minVersion <= k
    ensures forall version: nat ::
      AtVersion(UpTo(fields, k), version) == if version <= k then AtVersion(fields, version) else []
  {
    if fields != [] {
      UpToMembers(fields[1..], k);
      forall version: nat
        ensures AtVersion(UpTo(fields, k), version) == if version <= k then AtVersion(fields, version) else []
      {
        if fields[0].minVersion <= k {
          assert UpTo(fields, k)[1..] == UpTo(fields[1..], k);
        } else {
          assert UpTo(fields, k) == UpTo(fields[1..], k);
        }
      }
    }
  }

  lemma {:induction false} PrefixAtVersion(wire: seq<StructField>, k: nat, version: nat)
    requires SortedByVersion(wire)
    ensures AtVersion(wire[..ReadCount(wire, k)], version) ==
            if version <= k then AtVersion(wire, version) else []
  {
    var n := ReadCount(wire, k);
    ReadCountSplits(wire, k);
    AtVersionMembers(wire, version);
    if n == 0 {
      assert version <= k && AtVersion(wire, version) != [] ==> AtVersion(wire, version)[0] in AtVersion(wire, version);
    } else {
      PrefixAtVersion(wire[1..], k, version);
      assert wire[..n][1..] == wire[1..][..n - 1];
    }
  }

  /** The older struct's wire order is a leading run of the newer one's. */
  lemma OlderIsPrefix(fields: seq<StructField>, k: nat)
    ensures WireFields(UpTo(fields, k)) == WireFields(fields)[..ReadCount(WireFields(fields), k)]
  {
    var wire := WireFields(fields);
    var prefix := wire[..ReadCount(wire, k)];
    WireIsStableSort(fields);
    WireIsStableSort(UpTo(fields, k));
    UpToMembers(fields, k);
    forall version: nat ensures AtVersion(WireFields(UpTo(fields, k)), version) == AtVersion(prefix, version) {
      PrefixAtVersion(wire, k, version);
    }
    StableSortUnique(WireFields(UpTo(fields, k)), prefix);
  }

  lemma WireMembers(fields: seq<StructField>)
    ensures SortedByVersion(WireFields(fields))
    ensures forall i :: 0 <= i < |WireFields(fields)| ==> WireFields(fields)[i] in fields
    ensures forall i :: 0 <= i < |WireFields(fields)| ==> WireFields(fields)[i].minVersion <= Version(fields)
  {
    var wire := WireFields(fields);
    WireIsStableSort(fields);
    VersionIsMax(fields);
    forall i | 0 <= i < |wire| ensures wire[i] in fields {
      assert wire[i] in multiset(wire);
    }
  }

  lemma CutVersion(fields: seq<StructField>, k: nat)
    ensures Version(UpTo(fields, k)) <= k
  {
    UpToMembers(fields, k);
    VersionIsMax(UpTo(fields, k));
  }

  /** Every reader of its own version finds every field. */
  lemma OwnReadCount(fields: seq<StructField>)
    ensures ReadCount(WireFields(fields), Version(fields)) == |WireFields(fields)|
  {
    WireMembers(fields);
    ReadCountIs(WireFields(fields), Version(fields), |WireFields(fields)|);
  }

  /** Between a struct and any older cut of it, both readers find exactly the cut's fields. */
  lemma CutReadCounts(fields: seq<StructField>, k: nat)
    ensures var cut := WireFields(UpTo(fields, k));
            && ReadCount(cut, Version(fields)) == |cut|
            && ReadCount(WireFields(fields), Version(UpTo(fields, k))) == |cut|
            && cut <= WireFields(fields)
  {
    hide UpTo, InsertField, AtVersion, ReadCount;
    var wire := WireFields(fields);
    var cut := WireFields(UpTo(fields, k));
    OlderIsPrefix(fields, k);
    WireMembers(fields);
    WireMembers(UpTo(fields, k));
    CutVersion(fields, k);
    ReadCountIs(cut, Version(fields), |cut|);
    ReadCountSplits(wire, k);
    ReadCountIs(wire, Version(UpTo(fields, k)), |cut|);
  }
}
