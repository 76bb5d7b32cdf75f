/** The object-numbering table of the status dump (`StatusDumper`). Every
    object dumped gets a name "C-k": `C` is its class name and it is the
    `k`-th object of that class to be named. Names are found again by
    identity through chains of entries, one chain per hash code. A second
    table records which names have been dumped already, so shared objects
    are written once. The dump text itself is left out. `Runtime` gives the
    two things the table asks of an object, `hashCode` and
    `getClass().getName()`. */
module StatusDumper {
  import opened Jvm

  /** An object's name: "NULL" for the null reference, "C-k" otherwise. */
  datatype Name = NullName | Named(cls: string, k: int)

  /** The text of a name: the class name, '-' and the number in decimal.
      Java class names contain no '-', so different names have different
      texts (`RenderIsInjective`). */
  function Render(n: Name): (s: string)
    ensures n.NullName? ==> s == "NULL"
    ensures n.Named? ==> |s| > |n.cls| + 1 && s[..|n.cls|] == n.cls && s[|n.cls|] == '-'
    ensures n.Named? ==> (n.k < 0 <==> s[|n.cls| + 1] == '-')
    ensures n.Named? && n.k >= 0 ==> DigitsValue(s[|n.cls| + 1..]) == n.k
  {
    match n
    case NullName => "NULL"
    case Named(cls, k) =>
      var s := cls + "-" + DecimalString(k);
      assert s[|cls| + 1..] == DecimalString(k);
      if k >= 0 then (DigitsRoundTrip(k); s) else s
  }

  /** A name whose text can be read back: the null name, or a class name
      without '-' and a number that is not negative. */
  predicate Readable(n: Name) {
    n.Named? ==> '-' !in n.cls && n.k >= 0
  }

  /** Distinct readable names have distinct texts: the first '-' of a text
      ends the class name, and the digits after it give the number. */
  lemma RenderIsInjective(a: Name, b: Name)
    requires Readable(a) && Readable(b)
    requires Render(a) == Render(b)
    ensures a == b
  {
    if a.Named? && b.Named? {
      // Neither class name can be longer: the other text has its '-' there.
      assert |a.cls| == |b.cls|;
      assert a.cls == Render(a)[..|a.cls|] == b.cls;
    }
  }

  datatype Runtime<!O> = Runtime(hash: O -> int, classOf: O -> string)

  /** One link of a hash chain. */
  datatype Entry<O> = Entry(obj: O, num: Name)

  datatype Dumper<O> = Dumper(
    extraIndent: int,
    nextObjectNumber: map<string, nat>,
    seenObjects: map<Name, bool>,
    chainingLists: map<int, seq<Entry<O>>>,
    objectsCount: int)

  /** The constructor: empty tables, indentation -1 (the first object dumped
      brings it to 0). */
  function New<O>(): (d: Dumper<O>)
    ensures d.extraIndent == -1 && d.objectsCount == 0
    ensures Entries(d) == {} && d.seenObjects == map[]
  {
    Dumper(-1, map[], map[], map[], 0)
  }

  /** `dumpedObjects`. */
  function DumpedObjects<O>(d: Dumper<O>): int {
    d.objectsCount
  }

  /** How many objects of class `c` have been named so far. */
  function Next<O>(d: Dumper<O>, c: string): nat {
    if c in d.nextObjectNumber then d.nextObjectNumber[c] else 0
  }

  /** Every entry of every chain. */
  ghost function Entries<O>(d: Dumper<O>): set<Entry<O>> {
    set h, e | h in d.chainingLists && e in d.chainingLists[h] :: e
  }

  /** Every name handed out. */
  ghost function NamesOf<O>(d: Dumper<O>): set<Name> {
    set e | e in Entries(d) :: e.num
  }

  /** The table's invariant: each entry sits in the chain of its object's
      hash code; no object and no name is entered twice; an entry's name
      carries the object's class and a number no larger than the class's
      count; the names of a class are exactly 1 up to its count; and the
      dumped-flags table knows exactly the names handed out. */
  ghost predicate Valid<O>(d: Dumper<O>, rt: Runtime<O>) {
    && ChainsHashed(d, rt) && ObjectsUnique(d) && NamesUnique(d) && NamesTyped(d, rt)
    && NamesCounted(d) && CountsCovered(d) && d.seenObjects.Keys == NamesOf(d)
  }

  ghost predicate ChainsHashed<O>(d: Dumper<O>, rt: Runtime<O>) {
    forall h, e :: h in d.chainingLists && e in d.chainingLists[h] ==> rt.hash(e.obj) == h
  }

  ghost predicate ObjectsUnique<O>(d: Dumper<O>) {
    forall e1, e2 :: e1 in Entries(d) && e2 in Entries(d) && e1.obj == e2.obj ==> e1 == e2
  }

  ghost predicate NamesUnique<O>(d: Dumper<O>) {
    forall e1, e2 :: e1 in Entries(d) && e2 in Entries(d) && e1.num == e2.num ==> e1 == e2
  }

  ghost predicate NamesTyped<O>(d: Dumper<O>, rt: Runtime<O>) {
    forall e :: e in Entries(d) ==> e.num.Named? && e.num.cls == rt.classOf(e.obj)
  }

  ghost predicate NamesCounted<O>(d: Dumper<O>) {
    forall e :: e in Entries(d) ==> e.num.Named? && 1 <= e.num.k <= Next(d, e.num.cls)
  }

  ghost predicate CountsCovered<O>(d: Dumper<O>) {
    forall c, k :: 1 <= k <= Next(d, c) ==> Named(c, k) in NamesOf(d)
  }

  lemma NewIsValid<O>(rt: Runtime<O>)
    ensures Valid(New<O>(), rt)
  {
  }

  /** The search along one chain, by identity. */
  function FindIn<O(==)>(chain: seq<Entry<O>>, o: O): (r: Option<Name>)
    ensures r.Some? ==> Entry(o, r.value) in chain
    ensures r.None? ==> forall e :: e in chain ==> e.obj != o
    decreases |chain|
  {
    if chain == [] then None
    else if chain[0].obj == o then Some(chain[0].num)
    else FindIn(chain[1..], o)
  }

  /** `lookupObject`: the name of `o`, if it has one. */
  function LookupObject<O(==)>(d: Dumper<O>, rt: Runtime<O>, o: O): (r: Option<Name>)
    requires Valid(d, rt)
    ensures r.Some? ==> Entry(o, r.value) in Entries(d)
    ensures r.None? <==> forall n :: Entry(o, n) !in Entries(d)
  {
    var h := rt.hash(o);
    if h !in d.chainingLists then None
    else
      var r := FindIn(d.chainingLists[h], o);
      LookupAgrees(d, rt, o, r);
      r
  }

  lemma LookupAgrees<O>(d: Dumper<O>, rt: Runtime<O>, o: O, r: Option<Name>)
    requires Valid(d, rt) && rt.hash(o) in d.chainingLists
    requires r == FindIn(d.chainingLists[rt.hash(o)], o)
    ensures r.Some? ==> Entry(o, r.value) in Entries(d)
    ensures r.None? ==> forall n :: Entry(o, n) !in Entries(d)
  {
    var chain := d.chainingLists[rt.hash(o)];
    if r.Some? {
      var h := rt.hash(o);
      assert h in d.chainingLists && Entry(o, r.value) in d.chainingLists[h];
      assert Entry(o, r.value) in Entries(d);
    }
    forall n | Entry(o, n) in Entries(d)
      ensures Entry(o, n) in chain
    {
      var h' :| h' in d.chainingLists && Entry(o, n) in d.chainingLists[h'];
      assert rt.hash(Entry(o, n).obj) == h';
    }
  }

  /** `addObject`: puts a new entry at the front of its hash chain. */
  function AddObject<O>(d: Dumper<O>, rt: Runtime<O>, o: O, n: Name): (r: Dumper<O>)
    ensures r == d.(chainingLists := r.chainingLists)
    ensures Entries(r) == Entries(d) + {Entry(o, n)}
  {
    var h := rt.hash(o);
    var chain := if h in d.chainingLists then d.chainingLists[h] else [];
    var r := d.(chainingLists := d.chainingLists[h := [Entry(o, n)] + chain]);
    AddObjectEntries(d, r, h, Entry(o, n));
    r
  }

  lemma AddObjectEntries<O>(d: Dumper<O>, r: Dumper<O>, h: int, e: Entry<O>)
    requires r == d.(chainingLists := d.chainingLists[h := [e] + (if h in d.chainingLists then d.chainingLists[h] else [])])
    ensures Entries(r) == Entries(d) + {e}
  {
    forall x | x in Entries(r)
      ensures x in Entries(d) + {e}
    {
      var h' :| h' in r.chainingLists && x in r.chainingLists[h'];
      if h' != h {
        assert x in d.chainingLists[h'];
      } else if x != e {
        assert x in d.chainingLists[h];
      }
    }
    forall x | x in Entries(d) + {e}
      ensures x in Entries(r)
    {
      if x == e {
        assert x in r.chainingLists[h];
      } else {
        var h' :| h' in d.chainingLists && x in d.chainingLists[h'];
        assert x in r.chainingLists[h'];
      }
    }
  }

  /** `objectNumber`: "NULL" for null; an object's existing name if it has
      one, with nothing changed; otherwise the next number of its class,
      entered in the chains and in the dumped-flags table as not dumped. */
  function ObjectNumber<O(==)>(d: Dumper<O>, rt: Runtime<O>, o: Option<O>): (r: (Dumper<O>, Name))
    requires Valid(d, rt)
    ensures Valid(r.0, rt)
    ensures o.None? ==> r == (d, NullName)
    ensures o.Some? && LookupObject(d, rt, o.value).Some? ==> r == (d, LookupObject(d, rt, o.value).value)
    ensures o.Some? && LookupObject(d, rt, o.value).None? ==>
      && r.1 == Named(rt.classOf(o.value), Next(d, rt.classOf(o.value)) + 1)
      && r.1 !in NamesOf(d)
      && Entries(r.0) == Entries(d) + {Entry(o.value, r.1)}
      && r.0.seenObjects == d.seenObjects[r.1 := false]
      && r.0.extraIndent == d.extraIndent && r.0.objectsCount == d.objectsCount
    ensures r.1.Named? ==> Entry(o.value, r.1) in Entries(r.0)
  {
    match o
    case None => (d, NullName)
    case Some(x) =>
      var found := LookupObject(d, rt, x);
      if found.Some? then (d, found.value)
      else
        var c := rt.classOf(x);
        var counted := if c !in d.nextObjectNumber then d.(nextObjectNumber := d.nextObjectNumber[c := 1])
                       else d.(nextObjectNumber := d.nextObjectNumber[c := d.nextObjectNumber[c] + 1]);
        var given := Named(c, Next(d, c) + 1);
        var added := AddObject(counted, rt, x, given);
        var r := added.(seenObjects := added.seenObjects[given := false]);
        NumberingKeepsValid(d, rt, x, counted, added, r);
        (r, given)
  }

  lemma NumberingKeepsValid<O>(d: Dumper<O>, rt: Runtime<O>, x: O, counted: Dumper<O>, added: Dumper<O>, r: Dumper<O>)
    requires Valid(d, rt)
    requires forall n :: Entry(x, n) !in Entries(d)
    requires counted == d.(nextObjectNumber := d.nextObjectNumber[rt.classOf(x) := Next(d, rt.classOf(x)) + 1])
    requires added == AddObject(counted, rt, x, Named(rt.classOf(x), Next(d, rt.classOf(x)) + 1))
    requires r == added.(seenObjects := added.seenObjects[Named(rt.classOf(x), Next(d, rt.classOf(x)) + 1) := false])
    ensures Valid(r, rt)
    ensures Named(rt.classOf(x), Next(d, rt.classOf(x)) + 1) !in NamesOf(d)
  {
    var c := rt.classOf(x);
    var newName := Named(c, Next(d, c) + 1);
    var e := Entry(x, newName);
    assert Entries(counted) == Entries(d);
    assert Entries(r) == Entries(d) + {e};
    NewNameUnused(d, c);
    NamesGrow(d, r, e);
    EntriesStayValid(d, r, rt, e);
    ChainsStayHashed(d, r, rt, e);
    CountsStayCovered(d, r, c);
  }

  /** The next number of a class is not yet taken. */
  lemma NewNameUnused<O>(d: Dumper<O>, c: string)
    requires NamesCounted(d)
    ensures Named(c, Next(d, c) + 1) !in NamesOf(d)
  {
  }

  /** Entering a new object under a new name of its class keeps the
      entries' invariants. */
  lemma EntriesStayValid<O>(d: Dumper<O>, r: Dumper<O>, rt: Runtime<O>, e: Entry<O>)
    requires ObjectsUnique(d) && NamesUnique(d) && NamesTyped(d, rt) && NamesCounted(d)
    requires Entries(r) == Entries(d) + {e}
    requires forall n :: Entry(e.obj, n) !in Entries(d)
    requires e.num == Named(rt.classOf(e.obj), Next(d, rt.classOf(e.obj)) + 1)
    requires e.num !in NamesOf(d)
    requires forall c :: Next(r, c) >= Next(d, c)
    requires Next(r, e.num.cls) == e.num.k
    ensures ObjectsUnique(r) && NamesUnique(r) && NamesTyped(r, rt) && NamesCounted(r)
  {
    forall e1 | e1 in Entries(d)
      ensures e1.obj != e.obj && e1.num != e.num
    {
      assert e1.num in NamesOf(d);
    }
    forall e1 | e1 in Entries(r)
      ensures e1.num.Named? && 1 <= e1.num.k <= Next(r, e1.num.cls)
    {
      if e1 != e {
        assert Next(d, e1.num.cls) <= Next(r, e1.num.cls);
      }
    }
  }

  lemma NamesGrow<O>(d: Dumper<O>, r: Dumper<O>, e: Entry<O>)
    requires Entries(r) == Entries(d) + {e}
    ensures NamesOf(r) == NamesOf(d) + {e.num}
  {
  }

  lemma ChainsStayHashed<O>(d: Dumper<O>, r: Dumper<O>, rt: Runtime<O>, e: Entry<O>)
    requires ChainsHashed(d, rt)
    requires r.chainingLists == d.chainingLists[rt.hash(e.obj) := [e] + (if rt.hash(e.obj) in d.chainingLists then d.chainingLists[rt.hash(e.obj)] else [])]
    ensures ChainsHashed(r, rt)
  {
    var h0 := rt.hash(e.obj);
    forall h, e' | h in r.chainingLists && e' in r.chainingLists[h]
      ensures rt.hash(e'.obj) == h
    {
      if h == h0 && e' != e {
        assert e' in d.chainingLists[h];
      } else if h != h0 {
        assert e' in d.chainingLists[h];
      }
    }
  }

  lemma CountsStayCovered<O>(d: Dumper<O>, r: Dumper<O>, c: string)
    requires CountsCovered(d)
    requires r.nextObjectNumber == d.nextObjectNumber[c := Next(d, c) + 1]
    requires NamesOf(r) == NamesOf(d) + {Named(c, Next(d, c) + 1)}
    ensures CountsCovered(r)
  {
    forall c', k | 1 <= k <= Next(r, c')
      ensures Named(c', k) in NamesOf(r)
    {
      if c' != c || k <= Next(d, c) {
        assert 1 <= k <= Next(d, c');
      }
    }
  }

  /** Numbering is stable: a second call for the same object returns the
      same name and changes nothing. */
  lemma NumberingIsStable<O>(d: Dumper<O>, rt: Runtime<O>, x: O)
    requires Valid(d, rt)
    ensures var (d1, n) := ObjectNumber(d, rt, Some(x));
      ObjectNumber(d1, rt, Some(x)) == (d1, n)
  {
  }

  /** Different objects get different names. */
  lemma DistinctObjectsDistinctNames<O>(d: Dumper<O>, rt: Runtime<O>, a: O, b: O)
    requires Valid(d, rt) && a != b
    ensures var (d1, na) := ObjectNumber(d, rt, Some(a));
      ObjectNumber(d1, rt, Some(b)).1 != na
  {
    var (d1, na) := ObjectNumber(d, rt, Some(a));
    var (d2, nb) := ObjectNumber(d1, rt, Some(b));
    assert Entry(a, na) in Entries(d2) && Entry(b, nb) in Entries(d2);
  }

  /** The names of class `c` handed out so far are "c-1" to "c-N"; so the
      object that receives "c-k" is the `k`-th of its class to be named. */
  lemma ClassNamesAreCounted<O>(d: Dumper<O>, rt: Runtime<O>, c: string)
    requires Valid(d, rt)
    ensures (set n | n in NamesOf(d) && n.cls == c) == NamesUpTo(c, Next(d, c))
    ensures |NamesUpTo(c, Next(d, c))| == if Next(d, c) < 0 then 0 else Next(d, c)
  {
    NamesUpToSize(c, Next(d, c));
  }

  /** "c-1" to "c-n". */
  ghost function NamesUpTo(c: string, n: int): set<Name> {
    set k | 1 <= k <= n :: Named(c, k)
  }

  lemma {:induction false} NamesUpToSize(c: string, n: int)
    ensures |NamesUpTo(c, n)| == if n < 0 then 0 else n
    decreases if n < 0 then 0 else n
  {
    if n <= 0 {
      assert NamesUpTo(c, n) == {};
    } else {
      NamesUpToSize(c, n - 1);
      assert NamesUpTo(c, n) == NamesUpTo(c, n - 1) + {Named(c, n)};
    }
  }

  /** Whether `o` has been dumped already. */
  function AlreadyDumped<O(==)>(d: Dumper<O>, rt: Runtime<O>, o: O): bool
    requires Valid(d, rt)
  {
    match LookupObject(d, rt, o)
    case None => false
    case Some(n) => n in d.seenObjects && d.seenObjects[n]
  }

  /** `dumped`: numbers the object, then reports whether it was dumped
      before; the first time, it marks it dumped, counts it and indents one
      level more. The null reference has no dumped flag to read. */
  function Dumped<O(==)>(d: Dumper<O>, rt: Runtime<O>, o: Option<O>): (r: (Dumper<O>, Result<bool>))
    requires Valid(d, rt)
    ensures Valid(r.0, rt)
    ensures o.None? <==> r.1 == Throw(NullPointer)
    ensures o.Some? ==> r.1 == Ok(AlreadyDumped(d, rt, o.value))
    ensures r.1 == Ok(false) ==>
      r.0.objectsCount == d.objectsCount + 1 && r.0.extraIndent == d.extraIndent + 1 && AlreadyDumped(r.0, rt, o.value)
    ensures r.1 == Ok(true) ==> r.0 == d
    ensures r.1.Throw? ==> r.0 == d
  {
    var (d1, name) := ObjectNumber(d, rt, o);
    NullNeverSeen(d1, rt);
    NumberedFlagIfAny(d, rt, o);
    if name !in d1.seenObjects then (d1, Throw(NullPointer))
    else if !d1.seenObjects[name] then
      var r := MarkDumped(d1, rt, name);
      (r, Ok(false))
    else (d1, Ok(true))
  }

  /** The null reference never receives a dumped flag. */
  lemma NullNeverSeen<O>(d: Dumper<O>, rt: Runtime<O>)
    requires Valid(d, rt)
    ensures NullName !in d.seenObjects
  {
  }

  /** After numbering, the object's name has a dumped flag, which is the
      object's dumped state before numbering, and looking the object up
      finds that name. */
  lemma NumberedFlag<O>(d: Dumper<O>, rt: Runtime<O>, x: O)
    requires Valid(d, rt)
    ensures var (d1, name) := ObjectNumber(d, rt, Some(x));
      && name in d1.seenObjects && d1.seenObjects[name] == AlreadyDumped(d, rt, x)
      && LookupObject(d1, rt, x) == Some(name)
  {
    var (d1, name) := ObjectNumber(d, rt, Some(x));
    assert name in NamesOf(d1);
    var found := LookupObject(d1, rt, x);
    assert found.Some? && Entry(x, found.value) in Entries(d1);
  }

  lemma NumberedFlagIfAny<O>(d: Dumper<O>, rt: Runtime<O>, o: Option<O>)
    requires Valid(d, rt)
    ensures o.Some? ==> var (d1, name) := ObjectNumber(d, rt, o);
      && name in d1.seenObjects && d1.seenObjects[name] == AlreadyDumped(d, rt, o.value)
      && LookupObject(d1, rt, o.value) == Some(name)
  {
    if o.Some? {
      NumberedFlag(d, rt, o.value);
    }
  }

  /** Marking a numbered object dumped: its flag set, one more object
      counted and one more indentation level. */
  function MarkDumped<O>(d: Dumper<O>, rt: Runtime<O>, name: Name): (r: Dumper<O>)
    requires Valid(d, rt) && name in d.seenObjects
    ensures Valid(r, rt)
    ensures r.chainingLists == d.chainingLists && r.seenObjects == d.seenObjects[name := true]
    ensures r.objectsCount == d.objectsCount + 1 && r.extraIndent == d.extraIndent + 1
  {
    var r := d.(extraIndent := d.extraIndent + 1, seenObjects := d.seenObjects[name := true],
                objectsCount := d.objectsCount + 1);
    assert Entries(r) == Entries(d);
    r
  }

  /** `endObject`: back out one indentation level. */
  function EndObject<O>(d: Dumper<O>): (r: Dumper<O>)
    ensures r.extraIndent == d.extraIndent - 1
    ensures r == d.(extraIndent := r.extraIndent)
  {
    d.(extraIndent := d.extraIndent - 1)
  }

  /** Once dumped, always dumped: the second `dumped` call for an object
      answers true and changes nothing, and a first dump closed by
      `endObject` restores the indentation. */
  lemma DumpedOnce<O>(d: Dumper<O>, rt: Runtime<O>, x: O)
    requires Valid(d, rt)
    ensures var (d1, first) := Dumped(d, rt, Some(x));
      Dumped(d1, rt, Some(x)) == (d1, Ok(true))
    ensures var (d1, first) := Dumped(d, rt, Some(x));
      first == Ok(false) ==> EndObject(d1).extraIndent == d.extraIndent
  {
  }
}
