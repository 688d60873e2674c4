/** `PytketResult` of the pyTKET executor: it turns a pytket backend result
    into Qiskit-style counts. Register sizes are counted from the bit names,
    and every readout key becomes one group of digits per register, the groups
    separated by spaces and the whole string reversed, so that the last
    register comes first and bit 0 is the rightmost character. */
module PytketExecutor {
  import opened Common

  /** One classical readout value. */
  type Bit = b: int | 0 <= b <= 1

  /** What the executor reads from a pytket `BackendResult`: the text of each
      classical bit (`"c[0]"`) from `get_bitlist()`, and `get_counts()`,
      keyed by readout tuples. */
  datatype BackendResult = BackendResult(bitList: seq<string>, counts: Dict<seq<Bit>, int>)

  // ---------------------------------------------------------------------
  // Python string helpers.

  /** Python's `s[:-1]`. */
  function DropLast(s: string): (r: string)
  {
    if s == [] then [] else s[..|s| - 1]
  }

  /** Python's `s.split(sep)` for a one-character separator. */
  function Split(s: string, sep: char): (r: seq<string>)
    ensures |r| >= 1
  {
    if s == [] then [""]
    else
      var parts := Split(s[..|s| - 1], sep);
      var c := s[|s| - 1];
      if c == sep then parts + [""]
      else parts[..|parts| - 1] + [parts[|parts| - 1] + [c]]
  }

  /** Python's `sep.join(fields)` for a one-character separator. */
  function Join(fields: seq<string>, sep: char): string
  {
    if fields == [] then ""
    else if |fields| == 1 then fields[0]
    else fields[0] + [sep] + Join(fields[1..], sep)
  }

  lemma {:induction false} JoinSnoc(fields: seq<string>, last: string, sep: char)
    requires fields != []
    ensures Join(fields + [last], sep) == Join(fields, sep) + [sep] + last
  {
    if |fields| > 1 {
      JoinSnoc(fields[1..], last, sep);
      assert (fields + [last])[1..] == fields[1..] + [last];
    }
  }

  /** Splitting `s` yields one more field than `s` has separators. */
  lemma {:induction false} SplitCount(s: string, sep: char)
    ensures |Split(s, sep)| == multiset(s)[sep] + 1
  {
    if s != [] {
      SplitCount(s[..|s| - 1], sep);
      assert s == s[..|s| - 1] + [s[|s| - 1]];
    }
  }

  /** Appending separator-free text extends the last field. */
  lemma {:induction false} SplitAppendField(s: string, t: string, sep: char)
    requires sep !in t
    ensures var p := Split(s, sep);
      Split(s + t, sep) == p[..|p| - 1] + [p[|p| - 1] + t]
  {
    if t != [] {
      var t', c := t[..|t| - 1], t[|t| - 1];
      assert t == t' + [c];
      assert sep !in t' && c != sep;
      SplitAppendField(s, t', sep);
      var p, q := Split(s, sep), Split(s + t', sep);
      assert q == p[..|p| - 1] + [p[|p| - 1] + t'];
      assert (s + t)[..|s + t| - 1] == s + t' && (s + t)[|s + t| - 1] == c;
      assert Split(s + t, sep) == q[..|q| - 1] + [q[|q| - 1] + [c]];
      assert q[..|q| - 1] == p[..|p| - 1] && q[|q| - 1] == p[|p| - 1] + t';
      assert p[|p| - 1] + t' + [c] == p[|p| - 1] + t;
    } else {
      var p := Split(s, sep);
      assert s + t == s;
      assert p[|p| - 1] + t == p[|p| - 1];
      assert p == p[..|p| - 1] + [p[|p| - 1]];
    }
  }

  /** No field holds the separator. */
  lemma {:induction false} SplitFields(s: string, sep: char)
    ensures forall i :: 0 <= i < |Split(s, sep)| ==> sep !in Split(s, sep)[i]
  {
    if s != [] {
      SplitFields(s[..|s| - 1], sep);
    }
  }

  /** `join` then `split` gives the fields back when none holds the separator. */
  lemma {:induction false} SplitJoin(fields: seq<string>, sep: char)
    requires fields != []
    requires forall i :: 0 <= i < |fields| ==> sep !in fields[i]
    ensures Split(Join(fields, sep), sep) == fields
  {
    var n := |fields|;
    if n == 1 {
      SplitAppendField("", fields[0], sep);
      assert Split("", sep) == [""];
      assert "" + fields[0] == fields[0];
      assert [""][..0] + [[""][0] + fields[0]] == [fields[0]];
    } else {
      var init := fields[..n - 1];
      SplitJoin(init, sep);
      JoinSnoc(init, fields[n - 1], sep);
      assert init + [fields[n - 1]] == fields;
      var s := Join(init, sep);
      SplitAppendField(s + [sep], fields[n - 1], sep);
      assert s + [sep] + fields[n - 1] == (s + [sep]) + fields[n - 1];
      assert (s + [sep])[..|s + [sep]| - 1] == s;
      var p := Split(s + [sep], sep);
      assert p == init + [""];
      assert p[..|p| - 1] == init && p[|p| - 1] + fields[n - 1] == fields[n - 1];
    }
  }

  /** `split` then `join` gives the string back. */
  lemma {:induction false} JoinSplit(s: string, sep: char)
    ensures Join(Split(s, sep), sep) == s
  {
    if s != [] {
      var init, c := s[..|s| - 1], s[|s| - 1];
      JoinSplit(init, sep);
      var p := Split(init, sep);
      assert s == init + [c];
      if c == sep {
        JoinSnoc(p, "", sep);
      } else if |p| == 1 {
        assert Split(s, sep) == [p[0] + [c]];
      } else {
        var q := p[..|p| - 1];
        assert p == q + [p[|p| - 1]];
        JoinSnoc(q, p[|p| - 1], sep);
        JoinSnoc(q, p[|p| - 1] + [c], sep);
        assert Split(s, sep) == q + [p[|p| - 1] + [c]];
      }
    }
  }

  /** Python's `s.replace(' ', '')`. */
  function RemoveSpaces(s: string): (r: string)
    ensures ' ' !in r
  {
    if s == [] then ""
    else RemoveSpaces(s[..|s| - 1]) + (if s[|s| - 1] == ' ' then "" else [s[|s| - 1]])
  }

  lemma {:induction false} RemoveSpacesAppend(a: string, b: string)
    ensures RemoveSpaces(a + b) == RemoveSpaces(a) + RemoveSpaces(b)
  {
    if b != [] {
      var b' := b[..|b| - 1];
      RemoveSpacesAppend(a, b');
      assert a + b == (a + b') + [b[|b| - 1]];
    } else {
      assert a + b == a;
    }
  }

  lemma {:induction false} RemoveSpacesNone(s: string)
    requires ' ' !in s
    ensures RemoveSpaces(s) == s
  {
    if s != [] {
      RemoveSpacesNone(s[..|s| - 1]);
    }
  }

  // ---------------------------------------------------------------------
  // Register sizes.

  /** The register name of a bit: `name, ind = str(cname)[:-1].split('[')`.
      `None` where the unpacking raises ValueError. */
  function RegisterName(bitName: string): Option<string>
  {
    var parts := Split(DropLast(bitName), '[');
    if |parts| == 2 then Some(parts[0]) else None
  }

  /** A bit name parses exactly when, without its last character, it holds a
      single `[`; the name is then the text before it. */
  lemma RegisterNameSpec(bitName: string)
    ensures RegisterName(bitName).Some? <==> multiset(DropLast(bitName))['['] == 1
    ensures RegisterName(bitName).Some? ==>
      var body := DropLast(bitName);
      var name := RegisterName(bitName).value;
      '[' !in name && |name| < |body| && body[..|name|] == name && body[|name|] == '['
  {
    var body := DropLast(bitName);
    SplitCount(body, '[');
    SplitFields(body, '[');
    var parts := Split(body, '[');
    if |parts| == 2 {
      JoinSplit(body, '[');
      assert body == parts[0] + ['['] + parts[1];
      assert body[..|parts[0]|] == parts[0];
    }
  }

  predicate AllNamed(bits: seq<string>)
  {
    forall i :: 0 <= i < |bits| ==> RegisterName(bits[i]).Some?
  }

  /** The register name of each bit. */
  function Names(bits: seq<string>): (r: seq<string>)
    requires AllNamed(bits)
    ensures |r| == |bits| && forall i :: 0 <= i < |bits| ==> r[i] == RegisterName(bits[i]).value
  {
    if bits == [] then [] else Names(bits[..|bits| - 1]) + [RegisterName(bits[|bits| - 1]).value]
  }

  /** `cregs`: bits counted per register name, in order of first appearance. */
  function RegisterSizes(names: seq<string>): Dict<string, int>
  {
    if names == [] then []
    else AddTo(RegisterSizes(names[..|names| - 1]), names[|names| - 1], 1)
  }

  /** The distinct names of `names`, in order of first appearance. */
  function FirstAppearances(names: seq<string>): (r: seq<string>)
  {
    if names == [] then []
    else
      var seen := FirstAppearances(names[..|names| - 1]);
      if names[|names| - 1] in seen then seen else seen + [names[|names| - 1]]
  }

  lemma {:induction false} FirstAppearancesSpec(names: seq<string>)
    ensures forall x :: x in FirstAppearances(names) <==> x in names
    ensures forall a, b :: 0 <= a < b < |FirstAppearances(names)| ==>
      FirstAppearances(names)[a] != FirstAppearances(names)[b]
  {
    if names != [] {
      FirstAppearancesSpec(names[..|names| - 1]);
      assert names == names[..|names| - 1] + [names[|names| - 1]];
    }
  }

  /** The register map lists each name once, in order of first appearance;
      each size is the number of bits of that register, at least 1, and the
      sizes add up to the number of bits. */
  lemma RegisterSizesSpec(names: seq<string>)
    ensures Keys(RegisterSizes(names)) == FirstAppearances(names)
    ensures DistinctKeys(RegisterSizes(names))
    ensures forall x :: Lookup(RegisterSizes(names), x) == multiset(names)[x]
    ensures forall i :: 0 <= i < |RegisterSizes(names)| ==> RegisterSizes(names)[i].1 >= 1
    ensures Total(RegisterSizes(names)) == |names|
  {
    RegisterSizesOrder(names);
    RegisterSizesCounts(names);
    RegisterSizesTotal(names);
  }

  lemma {:induction false} RegisterSizesOrder(names: seq<string>)
    ensures Keys(RegisterSizes(names)) == FirstAppearances(names)
  {
    if names != [] {
      var init, last := names[..|names| - 1], names[|names| - 1];
      RegisterSizesOrder(init);
      AddToOrder(RegisterSizes(init), last, 1);
    }
  }

  lemma {:induction false} RegisterSizesCounts(names: seq<string>)
    ensures DistinctKeys(RegisterSizes(names))
    ensures forall x :: Lookup(RegisterSizes(names), x) == multiset(names)[x]
  {
    if names != [] {
      var init, last := names[..|names| - 1], names[|names| - 1];
      RegisterSizesCounts(init);
      var d := RegisterSizes(init);
      AddToKeys(d, last, 1);
      assert names == init + [last];
      forall x ensures Lookup(RegisterSizes(names), x) == multiset(names)[x] {
        LookupAddTo(d, last, 1, x);
      }
    }
  }

  lemma {:induction false} RegisterSizesTotal(names: seq<string>)
    ensures forall i :: 0 <= i < |RegisterSizes(names)| ==> RegisterSizes(names)[i].1 >= 1
    ensures Total(RegisterSizes(names)) == |names|
  {
    if names != [] {
      var init, last := names[..|names| - 1], names[|names| - 1];
      RegisterSizesTotal(init);
      AddToTotal(RegisterSizes(init), last, 1);
      AddToPositive(RegisterSizes(init), last);
    }
  }

  lemma {:induction false} AddToPositive(d: Dict<string, int>, k: string)
    requires forall i :: 0 <= i < |d| ==> d[i].1 >= 1
    ensures forall i :: 0 <= i < |AddTo(d, k, 1)| ==> AddTo(d, k, 1)[i].1 >= 1
  {
    if d != [] && d[0].0 != k {
      AddToPositive(d[1..], k);
    }
  }

  /** The loop of `__init__` that fills `cregs`, over the reversed bit list.
      A malformed bit name raises ValueError. */
  method CountRegisters(bitList: seq<string>) returns (r: Result<Dict<string, int>>)
    ensures var rev := Reverse(bitList);
      r == if AllNamed(rev) then Ok(RegisterSizes(Names(rev))) else Err(ValueError)
  {
    var rev := Reverse(bitList);
    var cregs: Dict<string, int> := [];
    for i := 0 to |rev|
      invariant AllNamed(rev[..i])
      invariant cregs == RegisterSizes(Names(rev[..i]))
    {
      var name := RegisterName(rev[i]);
      if name.None? {
        NamedPrefix(rev, i);
        return Err(ValueError);
      }
      NamedPrefix(rev, i);
      cregs := AddTo(cregs, name.value, 1);
    }
    assert rev[..|rev|] == rev;
    r := Ok(cregs);
  }

  /** Extending a parsed prefix by one bit name. */
  lemma NamedPrefix(bits: seq<string>, i: nat)
    requires i < |bits| && AllNamed(bits[..i])
    ensures RegisterName(bits[i]).None? ==> !AllNamed(bits)
    ensures RegisterName(bits[i]).Some? ==>
      AllNamed(bits[..i + 1]) && Names(bits[..i + 1]) == Names(bits[..i]) + [RegisterName(bits[i]).value]
  {
    var done := bits[..i + 1];
    assert done[..i] == bits[..i] && done[i] == bits[i];
    if RegisterName(bits[i]).Some? {
      assert AllNamed(done);
    }
  }

  /** The register sizes, as `cregs.values()`. */
  function Sizes(d: Dict<string, int>): (r: seq<nat>)
    requires forall i :: 0 <= i < |d| ==> d[i].1 >= 0
    ensures |r| == |d| && forall i :: 0 <= i < |d| ==> r[i] == d[i].1
  {
    if d == [] then [] else [d[0].1 as nat] + Sizes(d[1..])
  }

  /** `cregs.values()` for a bit list whose names all parse. */
  function RegisterSizeList(bitList: seq<string>): seq<nat>
    requires AllNamed(Reverse(bitList))
  {
    RegisterSizesTotal(Names(Reverse(bitList)));
    Sizes(RegisterSizes(Names(Reverse(bitList))))
  }

  // ---------------------------------------------------------------------
  // Key reformatting.

  function Sum(sizes: seq<nat>): nat
  {
    if sizes == [] then 0 else Sum(sizes[..|sizes| - 1]) + sizes[|sizes| - 1]
  }

  /** The sum taken from the front. */
  lemma {:induction false} SumFront(s: seq<nat>)
    requires s != []
    ensures Sum(s) == s[0] + Sum(s[1..])
  {
    if |s| > 1 {
      SumFront(s[..|s| - 1]);
      assert s[..|s| - 1][1..] == s[1..][..|s| - 2];
    }
  }

  /** The register sizes add up to the total of the register map. */
  lemma {:induction false} SumSizes(d: Dict<string, int>)
    requires forall i :: 0 <= i < |d| ==> d[i].1 >= 0
    ensures Sum(Sizes(d)) == Total(d)
  {
    if d != [] {
      SumSizes(d[1..]);
      SumFront(Sizes(d));
      assert Sizes(d)[1..] == Sizes(d[1..]);
    }
  }

  /** `sum(cregs.values())` is the number of classical bits: a readout key
      of full length has exactly one digit per bit of the bit list. */
  lemma RegisterSizeListSum(bitList: seq<string>)
    requires AllNamed(Reverse(bitList))
    ensures Sum(RegisterSizeList(bitList)) == |bitList|
  {
    NamesSizesSum(Names(Reverse(bitList)));
  }

  lemma NamesSizesSum(names: seq<string>)
    ensures forall i :: 0 <= i < |RegisterSizes(names)| ==> RegisterSizes(names)[i].1 >= 0
    ensures Sum(Sizes(RegisterSizes(names))) == |names|
  {
    RegisterSizesTotal(names);
    SumSizes(RegisterSizes(names));
  }


  /** Python's `key[lo:hi]` for `0 <= lo <= hi`. */
  function Slice<T>(key: seq<T>, lo: nat, hi: nat): (r: seq<T>)
    requires lo <= hi
    ensures |r| == Min(hi, |key|) - Min(lo, |key|)
    ensures forall i :: 0 <= i < |r| ==> r[i] == key[lo + i]
  {
    if lo >= |key| then [] else key[lo..Min(hi, |key|)]
  }

  /** `str(b)` for a readout bit. */
  function DigitOf(b: Bit): char
  {
    if b == 1 then '1' else '0'
  }

  /** `''.join([str(i) for i in bits])`. */
  function Digits(bits: seq<Bit>): string
  {
    seq(|bits|, i requires 0 <= i < |bits| => DigitOf(bits[i]))
  }

  lemma DigitsAppend(a: seq<Bit>, b: seq<Bit>)
    ensures Digits(a + b) == Digits(a) + Digits(b)
  {
    assert forall i :: 0 <= i < |a| + |b| ==> Digits(a + b)[i] == (Digits(a) + Digits(b))[i];
  }

  /** Distinct readouts have distinct digit strings. */
  lemma DigitsInjective(a: seq<Bit>, b: seq<Bit>)
    requires Digits(a) == Digits(b)
    ensures a == b
  {
    assert |a| == |b|;
    forall i | 0 <= i < |a| ensures a[i] == b[i] {
      assert Digits(a)[i] == Digits(b)[i];
    }
  }

  /** The digits of register `r`: the slice of `key` at the running offset. */
  function Group(key: seq<Bit>, sizes: seq<nat>, r: nat): string
    requires r < |sizes|
  {
    Digits(Slice(key, Sum(sizes[..r]), Sum(sizes[..r]) + sizes[r]))
  }

  /** `bit_list` after the loop over registers, before its last character
      is dropped: each group followed by a space. */
  function BitList(key: seq<Bit>, sizes: seq<nat>): string
  {
    if sizes == [] then ""
    else BitList(key, sizes[..|sizes| - 1]) + Group(key, sizes, |sizes| - 1) + " "
  }

  /** The reformatted key: `bit_list[:-1][::-1]`. */
  function FormattedKey(key: seq<Bit>, sizes: seq<nat>): string
  {
    Reverse(DropLast(BitList(key, sizes)))
  }

  /** The inner loop of `__init__`: the moving `bit` offset, one group per
      register, the trailing space dropped and the string reversed. */
  method ReformatKey(key: seq<Bit>, sizes: seq<nat>) returns (s: string)
    ensures s == FormattedKey(key, sizes)
  {
    var bitList := "";
    var bit := 0;
    for r := 0 to |sizes|
      invariant bit == Sum(sizes[..r])
      invariant bitList == BitList(key, sizes[..r])
    {
      var length := sizes[r];
      assert sizes[..r + 1][..r] == sizes[..r];
      GroupPrefix(key, sizes, r + 1, r);
      bitList := bitList + Digits(Slice(key, bit, bit + length));
      bitList := bitList + " ";
      bit := bit + length;
    }
    assert sizes[..|sizes|] == sizes;
    s := Reverse(DropLast(bitList));
  }

  /** A group depends only on the sizes up to its register. */
  lemma GroupPrefix(key: seq<Bit>, sizes: seq<nat>, n: nat, r: nat)
    requires r < n <= |sizes|
    ensures Group(key, sizes[..n], r) == Group(key, sizes, r)
  {
    assert sizes[..n][..r] == sizes[..r];
  }

  /** The groups of all registers, in register-map order. */
  function Groups(key: seq<Bit>, sizes: seq<nat>): seq<string>
  {
    seq(|sizes|, r requires 0 <= r < |sizes| => Group(key, sizes, r))
  }

  /** The groups of all registers are those of all but the last, then the
      last one. */
  lemma GroupsSnoc(key: seq<Bit>, sizes: seq<nat>)
    requires sizes != []
    ensures Groups(key, sizes) == Groups(key, sizes[..|sizes| - 1]) + [Group(key, sizes, |sizes| - 1)]
  {
    var n := |sizes|;
    forall r | 0 <= r < n - 1 ensures Groups(key, sizes)[r] == Groups(key, sizes[..n - 1])[r] {
      GroupPrefix(key, sizes, n - 1, r);
    }
  }

  /** The last group is the digits of the key between the clamped running
      offsets, and holds no space. */
  lemma LastGroup(key: seq<Bit>, sizes: seq<nat>)
    requires sizes != []
    ensures var init := sizes[..|sizes| - 1];
      var lo, hi := Min(Sum(init), |key|), Min(Sum(sizes), |key|);
      && lo <= hi
      && Group(key, sizes, |sizes| - 1) == Digits(key[lo..hi])
      && Digits(key[..hi]) == Digits(key[..lo]) + Group(key, sizes, |sizes| - 1)
      && ' ' !in Group(key, sizes, |sizes| - 1)
  {
    var n := |sizes|;
    var init := sizes[..n - 1];
    var lo, hi := Min(Sum(init), |key|), Min(Sum(sizes), |key|);
    var slice := Slice(key, Sum(init), Sum(init) + sizes[n - 1]);
    assert slice == key[lo..hi];
    assert key[..hi] == key[..lo] + slice;
    DigitsAppend(key[..lo], slice);
  }

  /** The groups together spell the digits of the key's first `Sum(sizes)`
      bits (all of it for a full-length key). */
  lemma {:induction false} BitListDigits(key: seq<Bit>, sizes: seq<nat>)
    ensures RemoveSpaces(BitList(key, sizes)) == Digits(key[..Min(Sum(sizes), |key|)])
  {
    if sizes != [] {
      var init := sizes[..|sizes| - 1];
      BitListDigits(key, init);
      LastGroup(key, sizes);
      var g := Group(key, sizes, |sizes| - 1);
      RemoveSpacesAppend(BitList(key, init) + g, " ");
      RemoveSpacesAppend(BitList(key, init), g);
      RemoveSpacesNone(g);
      assert RemoveSpaces(" ") == "";
    } else {
      assert key[..0] == [];
    }
  }

  /** One character per covered bit plus one space per register. */
  lemma {:induction false} BitListLength(key: seq<Bit>, sizes: seq<nat>)
    ensures |BitList(key, sizes)| == Min(Sum(sizes), |key|) + |sizes|
    ensures multiset(BitList(key, sizes))[' '] == |sizes|
  {
    if sizes != [] {
      var init := sizes[..|sizes| - 1];
      BitListLength(key, init);
      LastGroup(key, sizes);
      var g := Group(key, sizes, |sizes| - 1);
      assert multiset(g)[' '] == 0;
      assert multiset(BitList(key, sizes)) == multiset(BitList(key, init)) + multiset(g) + multiset(" ");
    }
  }

  /** Without its trailing space the bit list is the groups joined by spaces. */
  lemma {:induction false} BitListJoin(key: seq<Bit>, sizes: seq<nat>)
    ensures DropLast(BitList(key, sizes)) == Join(Groups(key, sizes), ' ')
  {
    var n := |sizes|;
    if n > 1 {
      var init := sizes[..n - 1];
      BitListJoin(key, init);
      GroupsSnoc(key, sizes);
      JoinSnoc(Groups(key, init), Group(key, sizes, n - 1), ' ');
    } else if n == 1 {
      assert sizes[..0] == [];
      assert Groups(key, sizes) == [Group(key, sizes, 0)];
    }
  }

  /** Each field reversed, and the order of the fields reversed. */
  function Mirror(fields: seq<string>): (r: seq<string>)
    ensures |r| == |fields|
  {
    if fields == [] then [] else Mirror(fields[1..]) + [Reverse(fields[0])]
  }

  lemma {:induction false} MirrorAt(fields: seq<string>, i: nat)
    requires i < |fields|
    ensures Mirror(fields)[i] == Reverse(fields[|fields| - 1 - i])
  {
    if i < |fields| - 1 {
      MirrorAt(fields[1..], i);
    }
  }

  lemma {:induction false} ReverseJoin(fields: seq<string>, sep: char)
    ensures Reverse(Join(fields, sep)) == Join(Mirror(fields), sep)
  {
    if |fields| == 1 {
      assert Mirror(fields) == [Reverse(fields[0])];
    } else if |fields| > 1 {
      ReverseJoin(fields[1..], sep);
      ReverseAppend(fields[0] + [sep], Join(fields[1..], sep));
      ReverseAppend(fields[0], [sep]);
      JoinSnoc(Mirror(fields[1..]), Reverse(fields[0]), sep);
    }
  }

  /** The reformatted key's space-separated fields, read left to right, are
      the registers' digit groups from the last register to the first, each
      reversed. */
  lemma FormattedKeyFields(key: seq<Bit>, sizes: seq<nat>)
    ensures FormattedKey(key, sizes) == Join(Mirror(Groups(key, sizes)), ' ')
    ensures sizes != [] ==> Split(FormattedKey(key, sizes), ' ') == Mirror(Groups(key, sizes))
  {
    BitListJoin(key, sizes);
    ReverseJoin(Groups(key, sizes), ' ');
    if sizes != [] {
      GroupsNoSpace(key, sizes);
      MirrorKeepsOut(Groups(key, sizes), ' ');
      SplitJoin(Mirror(Groups(key, sizes)), ' ');
    }
  }

  lemma GroupsNoSpace(key: seq<Bit>, sizes: seq<nat>)
    ensures forall r :: 0 <= r < |sizes| ==> ' ' !in Groups(key, sizes)[r]
  {
    forall r | 0 <= r < |sizes| ensures ' ' !in Groups(key, sizes)[r] {
      LastGroup(key, sizes[..r + 1]);
      GroupPrefix(key, sizes, r + 1, r);
    }
  }

  /** Reversing fields and their order brings in no new character. */
  lemma {:induction false} MirrorKeepsOut(fields: seq<string>, c: char)
    requires forall i :: 0 <= i < |fields| ==> c !in fields[i]
    ensures forall i :: 0 <= i < |fields| ==> c !in Mirror(fields)[i]
  {
    if fields != [] {
      MirrorKeepsOut(fields[1..], c);
      ReverseMultiset(fields[0]);
      assert c !in multiset(fields[0]);
    }
  }

  /** For a key with exactly one bit per classical bit: the i-th field from
      the left has the size of the i-th register from the end of the register
      map, there are `#registers - 1` spaces, and the length is the number of
      bits plus `#registers - 1`. */
  lemma FullKeyShape(key: seq<Bit>, sizes: seq<nat>)
    requires sizes != [] && |key| == Sum(sizes)
    ensures |Split(FormattedKey(key, sizes), ' ')| == |sizes|
    ensures forall i :: 0 <= i < |sizes| ==>
      |Split(FormattedKey(key, sizes), ' ')[i]| == sizes[|sizes| - 1 - i]
    ensures multiset(FormattedKey(key, sizes))[' '] == |sizes| - 1
    ensures |FormattedKey(key, sizes)| == |key| + |sizes| - 1
  {
    FieldSizes(key, sizes);
    FormattedKeyLength(key, sizes);
  }

  lemma FieldSizes(key: seq<Bit>, sizes: seq<nat>)
    requires sizes != [] && |key| == Sum(sizes)
    ensures |Split(FormattedKey(key, sizes), ' ')| == |sizes|
    ensures forall i :: 0 <= i < |sizes| ==>
      |Split(FormattedKey(key, sizes), ' ')[i]| == sizes[|sizes| - 1 - i]
  {
    var gs := Groups(key, sizes);
    forall r | 0 <= r < |sizes| ensures |gs[r]| == sizes[r] {
      GroupSize(key, sizes, r);
    }
    MirrorSizes(gs, sizes);
    FormattedKeyFields(key, sizes);
  }

  /** Mirroring a list of fields mirrors their sizes. */
  lemma MirrorSizes(fields: seq<string>, sizes: seq<nat>)
    requires |fields| == |sizes|
    requires forall r :: 0 <= r < |sizes| ==> |fields[r]| == sizes[r]
    ensures |Mirror(fields)| == |sizes|
    ensures forall i :: 0 <= i < |sizes| ==> |Mirror(fields)[i]| == sizes[|sizes| - 1 - i]
  {
    forall i | 0 <= i < |sizes| ensures |Mirror(fields)[i]| == sizes[|sizes| - 1 - i] {
      MirrorAt(fields, i);
    }
  }

  /** In a full-length key every register's group has the register's size. */
  lemma GroupSize(key: seq<Bit>, sizes: seq<nat>, r: nat)
    requires r < |sizes| && |key| == Sum(sizes)
    ensures |Groups(key, sizes)[r]| == sizes[r]
  {
    SumPrefix(sizes, r);
  }

  lemma FormattedKeyLength(key: seq<Bit>, sizes: seq<nat>)
    requires sizes != [] && |key| == Sum(sizes)
    ensures multiset(FormattedKey(key, sizes))[' '] == |sizes| - 1
    ensures |FormattedKey(key, sizes)| == |key| + |sizes| - 1
  {
    var b := BitList(key, sizes);
    BitListLength(key, sizes);
    assert b[|b| - 1] == ' ';
    assert b == DropLast(b) + [' '];
    ReverseMultiset(DropLast(b));
  }

  /** Every register's slice lies inside a full-length key. */
  lemma {:induction false} SumPrefix(sizes: seq<nat>, r: nat)
    requires r < |sizes|
    ensures Sum(sizes[..r]) + sizes[r] <= Sum(sizes)
  {
    var n := |sizes|;
    assert sizes[..n] == sizes;
    if r < n - 1 {
      SumPrefix(sizes[..n - 1], r);
      assert sizes[..n - 1][..r] == sizes[..r];
    } else {
      assert sizes[..n - 1] == sizes[..r];
    }
  }

  /** Round trip: reversing the reformatted key and deleting its spaces gives
      the digits of the readout, in their original order. */
  lemma RoundTrip(key: seq<Bit>, sizes: seq<nat>)
    ensures RemoveSpaces(Reverse(FormattedKey(key, sizes))) == Digits(key[..Min(Sum(sizes), |key|)])
  {
    var b := BitList(key, sizes);
    ReverseReverse(DropLast(b));
    BitListDigits(key, sizes);
    if b != [] {
      assert b == DropLast(b) + [b[|b| - 1]];
    }
  }

  /** Reformatting loses nothing on full-length keys. */
  lemma FormattedKeyInjective(a: seq<Bit>, b: seq<Bit>, sizes: seq<nat>)
    requires |a| == |b| == Sum(sizes)
    requires FormattedKey(a, sizes) == FormattedKey(b, sizes)
    ensures a == b
  {
    RoundTrip(a, sizes);
    RoundTrip(b, sizes);
    assert a[..|a|] == a && b[..|b|] == b;
    DigitsInjective(a, b);
  }

  // ---------------------------------------------------------------------
  // Re-keying a counts dictionary.

  /** `for key, val in counts.items(): new[f(key)] = val`: a later entry
      overwrites an earlier one whose key maps to the same new key. */
  function Overwrite<K, T(==)>(d: Dict<K, int>, f: K -> T): Dict<T, int>
  {
    if d == [] then []
    else Put(Overwrite(d[..|d| - 1], f), f(d[|d| - 1].0), d[|d| - 1].1)
  }

  /** Every entry, in order, under its new key. */
  function Relabel<K, T>(d: Dict<K, int>, f: K -> T): (r: Dict<T, int>)
    ensures |r| == |d|
  {
    if d == [] then [] else Relabel(d[..|d| - 1], f) + [(f(d[|d| - 1].0), d[|d| - 1].1)]
  }

  lemma {:induction false} RelabelAt<K, T>(d: Dict<K, int>, f: K -> T, i: nat)
    requires i < |d|
    ensures Relabel(d, f)[i] == (f(d[i].0), d[i].1)
  {
    if i < |d| - 1 {
      RelabelAt(d[..|d| - 1], f, i);
    }
  }

  lemma {:induction false} RelabelTotal<K, T>(d: Dict<K, int>, f: K -> T)
    ensures Total(Relabel(d, f)) == Total(d)
  {
    if d != [] {
      var init, last := d[..|d| - 1], d[|d| - 1];
      RelabelTotal(init, f);
      TotalAppend(Relabel(init, f), [(f(last.0), last.1)]);
      TotalAppend(init, [last]);
      assert d == init + [last];
    }
  }

  /** No two entries map to the same new key. */
  predicate DistinctImages<K, T(==)>(d: Dict<K, int>, f: K -> T)
  {
    forall a, b :: 0 <= a < b < |d| ==> f(d[a].0) != f(d[b].0)
  }

  /** When no two entries collide nothing is overwritten: each entry appears
      once, in order, under its new key, and the total is unchanged. */
  lemma {:induction false} OverwriteDistinct<K, T>(d: Dict<K, int>, f: K -> T)
    requires DistinctImages(d, f)
    ensures Overwrite(d, f) == Relabel(d, f)
    ensures DistinctKeys(Overwrite(d, f))
    ensures Total(Overwrite(d, f)) == Total(d)
  {
    if d != [] {
      var n := |d|;
      var init := d[..n - 1];
      assert DistinctImages(init, f) by {
        forall a, b | 0 <= a < b < n - 1 ensures f(init[a].0) != f(init[b].0) {
          assert init[a] == d[a] && init[b] == d[b];
        }
      }
      OverwriteDistinct(init, f);
      var prev := Relabel(init, f);
      forall i | 0 <= i < |prev| ensures prev[i].0 != f(d[n - 1].0) {
        RelabelAt(init, f, i);
        assert init[i] == d[i];
      }
      PutFresh(prev, f(d[n - 1].0), d[n - 1].1);
      forall a, b | 0 <= a < b < n ensures Relabel(d, f)[a].0 != Relabel(d, f)[b].0 {
        RelabelAt(d, f, a);
        RelabelAt(d, f, b);
      }
    }
    RelabelTotal(d, f);
  }

  // ---------------------------------------------------------------------
  // The counts.

  /** The key reformatting for the given register sizes. */
  function Formatter(sizes: seq<nat>): seq<Bit> -> string
  {
    key => FormattedKey(key, sizes)
  }

  /** `self.counts`: each entry stored under its reformatted key, a later
      entry overwriting an earlier one with the same key. */
  function Reformatted(counts: Dict<seq<Bit>, int>, sizes: seq<nat>): Dict<string, int>
  {
    Overwrite(counts, Formatter(sizes))
  }

  /** The outer loop of the count reformatting. */
  method ReformatCounts(counts: Dict<seq<Bit>, int>, sizes: seq<nat>) returns (out: Dict<string, int>)
    ensures out == Reformatted(counts, sizes)
  {
    out := [];
    for i := 0 to |counts|
      invariant out == Overwrite(counts[..i], Formatter(sizes))
    {
      var key, val := counts[i].0, counts[i].1;
      var bitList := ReformatKey(key, sizes);
      assert counts[..i + 1][..i] == counts[..i];
      out := Put(out, bitList, val);
    }
    assert counts[..|counts|] == counts;
  }

  /** Every count key has one bit per classical bit. */
  predicate FullLength(counts: Dict<seq<Bit>, int>, sizes: seq<nat>)
  {
    forall i :: 0 <= i < |counts| ==> |counts[i].0| == Sum(sizes)
  }

  /** On distinct full-length keys every entry survives once, in order, under
      its reformatted key: the keys stay distinct and the shots add up to the
      same total. */
  lemma ReformattedEntries(counts: Dict<seq<Bit>, int>, sizes: seq<nat>)
    requires DistinctKeys(counts) && FullLength(counts, sizes)
    ensures |Reformatted(counts, sizes)| == |counts|
    ensures forall i :: 0 <= i < |counts| ==>
      Reformatted(counts, sizes)[i] == (FormattedKey(counts[i].0, sizes), counts[i].1)
    ensures DistinctKeys(Reformatted(counts, sizes))
    ensures Total(Reformatted(counts, sizes)) == Total(counts)
  {
    var f := Formatter(sizes);
    forall a, b | 0 <= a < b < |counts| ensures f(counts[a].0) != f(counts[b].0) {
      if f(counts[a].0) == f(counts[b].0) {
        FormattedKeyInjective(counts[a].0, counts[b].0, sizes);
      }
    }
    OverwriteDistinct(counts, f);
    forall i | 0 <= i < |counts|
      ensures Reformatted(counts, sizes)[i] == (FormattedKey(counts[i].0, sizes), counts[i].1)
    {
      RelabelAt(counts, f, i);
    }
  }

  /** The counts `PytketResult` stores, for a backend result whose readout
      keys are distinct and each have one digit per classical bit: every
      entry appears once, in order, under its reformatted key; the keys stay
      distinct and the total number of shots is unchanged. */
  lemma ResultEntries(res: BackendResult)
    requires AllNamed(Reverse(res.bitList))
    requires DistinctKeys(res.counts)
    requires forall i :: 0 <= i < |res.counts| ==> |res.counts[i].0| == |res.bitList|
    ensures var out := Reformatted(res.counts, RegisterSizeList(res.bitList));
      && |out| == |res.counts|
      && (forall i :: 0 <= i < |res.counts| ==>
            out[i] == (FormattedKey(res.counts[i].0, RegisterSizeList(res.bitList)), res.counts[i].1))
      && DistinctKeys(out)
      && Total(out) == Total(res.counts)
  {
    RegisterSizeListSum(res.bitList);
    ReformattedEntries(res.counts, RegisterSizeList(res.bitList));
  }

  /** The pyTKET executor's result object. */
  class PytketResult {
    var quantinuumResult: BackendResult
    var counts: Dict<string, int>

    /** `__init__` on a result whose bit names all parse. */
    constructor (res: BackendResult)
      requires AllNamed(Reverse(res.bitList))
      ensures quantinuumResult == res
      ensures counts == Reformatted(res.counts, RegisterSizeList(res.bitList))
    {
      var cregs := CountRegisters(res.bitList);
      RegisterSizesTotal(Names(Reverse(res.bitList)));
      var sizes := Sizes(cregs.value);
      var reformatted := ReformatCounts(res.counts, sizes);
      quantinuumResult := res;
      counts := reformatted;
    }

    /** `get_counts`: the stored counts, whatever circuit is passed. */
    method GetCounts<C>(qc: Option<C>) returns (c: Dict<string, int>)
      ensures c == counts
    {
      c := counts;
    }
  }

  /** `PytketResult(res)`: ValueError, with no result object, when some bit
      name does not parse; otherwise a new object holding `res` and its counts
      re-keyed by register. */
  method NewPytketResult(res: BackendResult) returns (r: Result<PytketResult>)
    ensures r.Err? <==> !AllNamed(Reverse(res.bitList))
    ensures r.Err? ==> r.error == ValueError
    ensures r.Ok? ==> fresh(r.value) && r.value.quantinuumResult == res
    ensures r.Ok? ==> r.value.counts == Reformatted(res.counts, RegisterSizeList(res.bitList))
    ensures r.Ok? && DistinctKeys(res.counts)
              && (forall i :: 0 <= i < |res.counts| ==> |res.counts[i].0| == |res.bitList|) ==>
      |r.value.counts| == |res.counts| && DistinctKeys(r.value.counts)
      && Total(r.value.counts) == Total(res.counts)
  {
    var cregs := CountRegisters(res.bitList);
    if cregs.Err? {
      return Err(cregs.error);
    }
    var p := new PytketResult(res);
    r := Ok(p);
    if DistinctKeys(res.counts) && forall i :: 0 <= i < |res.counts| ==> |res.counts[i].0| == |res.bitList| {
      ResultEntries(res);
    }
  }
}
