/** The `TransactionKernelMastHash` snippet, as its Rust shadow runs it: the
    kernel's address is popped from the stack, its seven length-prefixed
    fields are read from word-addressed memory and hashed into leaves, the
    fixed eight-leaf Merkle tree is built and written into a sixteen-digest
    list in memory, and the root is pushed onto the stack. */
module KernelMastHashSnippet {
  import opened Field
  import opened Wrappers
  import Merkle
  import FieldCodec
  import TK = TransactionKernels

  type Memory = map<Felt, Felt>

  const NUM_FIELDS: nat := 7
  /** The timestamp is field 5, and its encoding must be one word long. */
  const TIMESTAMP_FIELD: nat := 5
  /** Digests in the list that holds the tree: slot 0 is unused. */
  const TREE_SLOTS: nat := 16

  /** The address of word i of the data that follows the size word at
      `address`: `address + BFieldElement::new(1 + i)`. */
  function DataAddress(address: Felt, i: nat): Felt
  {
    Add(address, New(1 + i))
  }

  /** The first n data words after the size word at `address`, read in
      order; reading a word that is not in memory panics. */
  function ReadWords(m: Memory, address: Felt, n: nat): (r: Result<seq<Felt>>)
    ensures r.Ok? ==> |r.value| == n
  {
    if n == 0 then Ok([])
    else
      match ReadWords(m, address, n - 1)
      case Panic(reason) => Panic(reason)
      case Ok(words) =>
        if DataAddress(address, n - 1) in m then Ok(words + [m[DataAddress(address, n - 1)]])
        else Panic("missing memory word")
  }

  /** Once reading panics, reading further words panics the same way. */
  lemma {:induction false} ReadWordsPanicPersists(m: Memory, address: Felt, n: nat, more: nat)
    requires ReadWords(m, address, n).Panic? && n <= more
    ensures ReadWords(m, address, more) == ReadWords(m, address, n)
    decreases more
  {
    if more > n {
      ReadWordsPanicPersists(m, address, n, more - 1);
    }
  }

  /** One field: its size word at `address`, its data in the next `size`
      words, and the address of the following field, `address + 1 + size`.
      For the timestamp, a size other than 1 fails right after the size
      word is read. */
  function ReadFieldSpec(m: Memory, address: Felt, mustBeOneWord: bool): Result<(seq<Felt>, Felt)>
  {
    if address !in m then Panic("missing memory word")
    else
      var size := m[address];
      if mustBeOneWord && size != 1 then Panic("timestamp size is not 1")
      else
        match ReadWords(m, address, size)
        case Panic(reason) => Panic(reason)
        case Ok(words) => Ok((words, Add(address, Add(1, New(size)))))
  }

  /** Continues reading at field `index`, at `address`, after the fields
      `done` were read. */
  function ReadFieldsFrom(m: Memory, address: Felt, index: nat, done: seq<seq<Felt>>)
    : (r: Result<seq<seq<Felt>>>)
    requires index <= NUM_FIELDS && |done| == index
    ensures r.Ok? ==> |r.value| == NUM_FIELDS
    decreases NUM_FIELDS - index
  {
    if index == NUM_FIELDS then Ok(done)
    else
      match ReadFieldSpec(m, address, index == TIMESTAMP_FIELD)
      case Panic(reason) => Panic(reason)
      case Ok((words, next)) => ReadFieldsFrom(m, next, index + 1, done + [words])
  }

  /** The seven fields of the kernel at `address`, in order. */
  function ReadFields(m: Memory, address: Felt): (r: Result<seq<seq<Felt>>>)
    ensures r.Ok? ==> |r.value| == NUM_FIELDS
  {
    ReadFieldsFrom(m, address, 0, [])
  }

  /** The eight leaves: one `hash_varlen` per field, then the zero digest. */
  function FieldLeaves(h: Merkle.Hasher, fields: seq<seq<Felt>>): (leaves: seq<Digest>)
    requires |fields| == NUM_FIELDS
    ensures |leaves| == 8 && leaves[7] == ZERO_DIGEST
  {
    Merkle.Leaves(h, fields) + [ZERO_DIGEST]
  }

  /** The address of word j of digest i of the list at `list`:
      `list + 1 + BFieldElement::new(i * DIGEST_LENGTH + j)`. */
  function ElementAddress(list: Felt, i: nat, j: nat): Felt
  {
    Add(Add(list, 1), New(i * DIGEST_LENGTH + j))
  }

  /** Memory after the first k words of digest d were written as element
      i of the list at `list`. */
  function WriteDigest(m: Memory, list: Felt, i: nat, d: Digest, k: nat): Memory
    requires k <= DIGEST_LENGTH
  {
    if k == 0 then m
    else WriteDigest(m, list, i, d, k - 1)[ElementAddress(list, i, k - 1) := d[k - 1]]
  }

  /** Memory after tree digests 1 to n were written, in order. */
  function WriteTree(base: Memory, list: Felt, nodes: seq<Digest>, n: nat): Memory
    requires |nodes| == TREE_SLOTS && n < TREE_SLOTS
  {
    if n == 0 then base
    else WriteDigest(WriteTree(base, list, nodes, n - 1), list, n, nodes[n], DIGEST_LENGTH)
  }

  /** The list fits below the field modulus, so element addresses are
      plain sums and never wrap around. */
  predicate ListFits(list: Felt)
  {
    list as int + 1 + TREE_SLOTS * DIGEST_LENGTH < P
  }

  /** `dynamic_allocator`: given the number of words asked for and the
      memory, the address it hands out and the memory it leaves. Its own
      policy is a parameter of the model. */
  type Allocator = (nat, Memory) -> (Felt, Memory)

  /** The words the snippet asks the allocator for: `16 * DIGEST_LENGTH`. */
  const REQUESTED_WORDS: nat := TREE_SLOTS * DIGEST_LENGTH

  /** The region the snippet writes, relative to the address the allocator
      returns: the length word at `list`, then list elements 1 to 15 strictly
      above it and no higher than `list + REQUESTED_WORDS`; the last word of
      element 15 is at exactly that address. The written span is thus
      `REQUESTED_WORDS + 1` words, one more than requested, because the length
      word precedes the elements. */
  lemma ListSpan(list: Felt)
    requires ListFits(list)
    ensures forall i, j :: 1 <= i < TREE_SLOTS && 0 <= j < DIGEST_LENGTH ==>
      list as int < ElementAddress(list, i, j) as int <= list as int + REQUESTED_WORDS
    ensures ElementAddress(list, TREE_SLOTS - 1, DIGEST_LENGTH - 1) as int == list as int + REQUESTED_WORDS
  {
    forall i, j | 1 <= i < TREE_SLOTS && 0 <= j < DIGEST_LENGTH
      ensures list as int < ElementAddress(list, i, j) as int <= list as int + REQUESTED_WORDS
    {
      ElementAddressValue(list, i, j);
    }
    ElementAddressValue(list, TREE_SLOTS - 1, DIGEST_LENGTH - 1);
  }

  lemma ElementAddressValue(list: Felt, i: nat, j: nat)
    requires ListFits(list) && i < TREE_SLOTS && j < DIGEST_LENGTH
    ensures ElementAddress(list, i, j) as int == list as int + 1 + i * DIGEST_LENGTH + j
  {
  }

  lemma {:induction false} WriteDigestReads(m: Memory, list: Felt, i: nat, d: Digest, k: nat, j: nat)
    requires ListFits(list) && i < TREE_SLOTS && j < k <= DIGEST_LENGTH
    ensures ElementAddress(list, i, j) in WriteDigest(m, list, i, d, k)
    ensures WriteDigest(m, list, i, d, k)[ElementAddress(list, i, j)] == d[j]
  {
    if j < k - 1 {
      WriteDigestReads(m, list, i, d, k - 1, j);
      ElementAddressValue(list, i, j);
      ElementAddressValue(list, i, k - 1);
    }
  }

  lemma {:induction false} WriteDigestKeeps(m: Memory, list: Felt, i: nat, d: Digest, k: nat, key: Felt)
    requires ListFits(list) && i < TREE_SLOTS && k <= DIGEST_LENGTH
    requires key as int < list as int + 1 + i * DIGEST_LENGTH || key as int >= list as int + 1 + i * DIGEST_LENGTH + k
    ensures key in WriteDigest(m, list, i, d, k) <==> key in m
    ensures key in m ==> WriteDigest(m, list, i, d, k)[key] == m[key]
  {
    if k > 0 {
      WriteDigestKeeps(m, list, i, d, k - 1, key);
      ElementAddressValue(list, i, k - 1);
    }
  }

  lemma {:induction false} WriteTreeReads(base: Memory, list: Felt, nodes: seq<Digest>, n: nat, i: nat, j: nat)
    requires |nodes| == TREE_SLOTS && ListFits(list)
    requires 1 <= i <= n < TREE_SLOTS && j < DIGEST_LENGTH
    ensures ElementAddress(list, i, j) in WriteTree(base, list, nodes, n)
    ensures WriteTree(base, list, nodes, n)[ElementAddress(list, i, j)] == nodes[i][j]
  {
    if i == n {
      WriteDigestReads(WriteTree(base, list, nodes, n - 1), list, n, nodes[n], DIGEST_LENGTH, j);
    } else {
      WriteTreeReads(base, list, nodes, n - 1, i, j);
      ElementAddressValue(list, i, j);
      WriteDigestKeeps(WriteTree(base, list, nodes, n - 1), list, n, nodes[n], DIGEST_LENGTH, ElementAddress(list, i, j));
    }
  }

  lemma {:induction false} WriteTreeKeeps(base: Memory, list: Felt, nodes: seq<Digest>, n: nat, key: Felt)
    requires |nodes| == TREE_SLOTS && ListFits(list) && n < TREE_SLOTS
    requires key as int < list as int + 1 + DIGEST_LENGTH || key as int >= list as int + 1 + TREE_SLOTS * DIGEST_LENGTH
    ensures key in WriteTree(base, list, nodes, n) <==> key in base
    ensures key in base ==> WriteTree(base, list, nodes, n)[key] == base[key]
  {
    if n > 0 {
      WriteTreeKeeps(base, list, nodes, n - 1, key);
      WriteDigestKeeps(WriteTree(base, list, nodes, n - 1), list, n, nodes[n], DIGEST_LENGTH, key);
    }
  }

  /** The whole effect of the snippet on a stack and a memory: the new stack
      and memory, or a panic. The allocator `dynamic_allocator`, asked for
      the sixteen-digest list, is a parameter returning the list address and
      the memory it leaves; `unsafe_list_new` and `unsafe_list_set_length`
      leave the length 16 in the list's first word. */
  function Shadow(h: Merkle.Hasher, allocate: Allocator, stack: seq<Felt>, m: Memory)
    : Result<(seq<Felt>, Memory)>
  {
    if |stack| == 0 then Panic("empty stack")
    else
      var address := stack[|stack| - 1];
      match ReadFields(m, address)
      case Panic(reason) => Panic(reason)
      case Ok(fields) =>
        var leaves := FieldLeaves(h, fields);
        var nodes := TreeNodes(h, leaves);
        var list := allocate(REQUESTED_WORDS, m).0;
        var withLength := allocate(REQUESTED_WORDS, m).1[list := 0][list := TREE_SLOTS as Felt];
        Ok((stack[..|stack| - 1] + Reversed(Merkle.Root(h, leaves)),
            WriteTree(withLength, list, nodes, TREE_SLOTS - 1)))
  }

  /** The tree's slots, as `function_code` fills its list: slot 0 unused,
      slots 8..15 the leaves, slot i the hash of slots 2i and 2i+1. */
  function TreeNodes(h: Merkle.Hasher, leaves: seq<Digest>): (nodes: seq<Digest>)
    requires |leaves| == 8
    ensures |nodes| == TREE_SLOTS && nodes[0] == ZERO_DIGEST
    ensures forall i :: 1 <= i < TREE_SLOTS ==> nodes[i] == Merkle.Node(h, leaves, i)
  {
    seq(TREE_SLOTS, i requires 0 <= i < TREE_SLOTS => if i == 0 then ZERO_DIGEST else Merkle.Node(h, leaves, i))
  }

  /** Builds the tree bottom-up in a sixteen-slot list, as `function_code`
      does: leaves into slots 8..15, then slots 7 down to 1. */
  method BuildTree(h: Merkle.Hasher, leaves: seq<Digest>) returns (nodes: seq<Digest>)
    requires |leaves| == 8
    ensures nodes == TreeNodes(h, leaves)
  {
    var list := new Digest[TREE_SLOTS](_ => ZERO_DIGEST);
    var k := 0;
    while k < 8
      invariant 0 <= k <= 8
      invariant list[0] == ZERO_DIGEST
      invariant forall j :: 8 <= j < 8 + k ==> list[j] == Merkle.Node(h, leaves, j)
    {
      list[8 + k] := leaves[k];
      k := k + 1;
    }
    var i := 7;
    while i >= 1
      invariant 0 <= i <= 7
      invariant list[0] == ZERO_DIGEST
      invariant forall j :: i < j < TREE_SLOTS ==> list[j] == Merkle.Node(h, leaves, j)
    {
      list[i] := h.pair(list[2 * i], list[2 * i + 1]);
      i := i - 1;
    }
    nodes := list[..];
  }

  /** What a successful run leaves on the stack: the popped address is
      replaced by the five words of the tree's root, for a net growth of four
      words, and everything below stays. A run panics exactly when the stack
      is empty or a field cannot be read. */
  lemma ShadowStackEffect(h: Merkle.Hasher, allocate: Allocator, stack: seq<Felt>, m: Memory)
    ensures Shadow(h, allocate, stack, m).Ok? <==> |stack| > 0 && ReadFields(m, stack[|stack| - 1]).Ok?
    ensures Shadow(h, allocate, stack, m).Ok? ==>
      var after := Shadow(h, allocate, stack, m).value.0;
      var leaves := FieldLeaves(h, ReadFields(m, stack[|stack| - 1]).value);
      |after| == |stack| + 4 &&
      after[..|stack| - 1] == stack[..|stack| - 1] &&
      after[|stack| - 1..] == Reversed(Merkle.Root(h, leaves))
  {
    if Shadow(h, allocate, stack, m).Ok? {
      var after := Shadow(h, allocate, stack, m).value.0;
      assert after[..|stack| - 1] == stack[..|stack| - 1];
    }
  }

  /** What a successful run leaves in memory, when the allocated list does
      not wrap around: the list's length word is 16, word j of list element
      i is word j of tree node i for every node 1 to 15, and every other
      word is as the allocator left it. */
  lemma ShadowMemoryEffect(h: Merkle.Hasher, allocate: Allocator, stack: seq<Felt>, m: Memory)
    requires Shadow(h, allocate, stack, m).Ok? && ListFits(allocate(REQUESTED_WORDS, m).0)
    ensures var after := Shadow(h, allocate, stack, m).value.1;
      var list := allocate(REQUESTED_WORDS, m).0;
      var leaves := FieldLeaves(h, ReadFields(m, stack[|stack| - 1]).value);
      (list in after && after[list] == TREE_SLOTS as Felt) &&
      (forall i, j :: 1 <= i < TREE_SLOTS && 0 <= j < DIGEST_LENGTH ==>
        ElementAddress(list, i, j) in after && after[ElementAddress(list, i, j)] == Merkle.Node(h, leaves, i)[j]) &&
      (forall key :: key as int < list as int || key as int >= list as int + 1 + TREE_SLOTS * DIGEST_LENGTH ==>
        (key in after <==> key in allocate(REQUESTED_WORDS, m).1) && (key in after ==> after[key] == allocate(REQUESTED_WORDS, m).1[key]))
  {
    var list := allocate(REQUESTED_WORDS, m).0;
    var leaves := FieldLeaves(h, ReadFields(m, stack[|stack| - 1]).value);
    var nodes := TreeNodes(h, leaves);
    var withLength := allocate(REQUESTED_WORDS, m).1[list := 0][list := TREE_SLOTS as Felt];
    var last := TREE_SLOTS - 1;
    WriteTreeKeeps(withLength, list, nodes, last, list);
    forall i, j | 1 <= i < TREE_SLOTS && 0 <= j < DIGEST_LENGTH
      ensures ElementAddress(list, i, j) in WriteTree(withLength, list, nodes, last)
      ensures WriteTree(withLength, list, nodes, last)[ElementAddress(list, i, j)] == Merkle.Node(h, leaves, i)[j]
    {
      WriteTreeReads(withLength, list, nodes, last, i, j);
    }
    forall key: Felt | key as int < list as int || key as int >= list as int + 1 + TREE_SLOTS * DIGEST_LENGTH
      ensures (key in WriteTree(withLength, list, nodes, last) <==> key in allocate(REQUESTED_WORDS, m).1)
      ensures key in allocate(REQUESTED_WORDS, m).1 ==> WriteTree(withLength, list, nodes, last)[key] == allocate(REQUESTED_WORDS, m).1[key]
    {
      WriteTreeKeeps(withLength, list, nodes, last, key);
    }
  }

  /** A field read as the timestamp is exactly one word long. */
  lemma ReadTimestampIsOneWord(m: Memory, address: Felt)
    requires ReadFieldSpec(m, address, true).Ok?
    ensures |ReadFieldSpec(m, address, true).value.0| == 1
  {
  }

  lemma {:induction false} ReadFieldsFromTimestamp(m: Memory, address: Felt, index: nat, done: seq<seq<Felt>>)
    requires index <= NUM_FIELDS && |done| == index
    requires index > TIMESTAMP_FIELD ==> |done[TIMESTAMP_FIELD]| == 1
    requires ReadFieldsFrom(m, address, index, done).Ok?
    ensures |ReadFieldsFrom(m, address, index, done).value[TIMESTAMP_FIELD]| == 1
    decreases NUM_FIELDS - index
  {
    if index < NUM_FIELDS {
      var field := ReadFieldSpec(m, address, index == TIMESTAMP_FIELD);
      var (words, next) := field.value;
      if index == TIMESTAMP_FIELD {
        ReadTimestampIsOneWord(m, address);
      }
      ReadFieldsFromTimestamp(m, next, index + 1, done + [words]);
    }
  }

  /** Whenever the fields can be read, the timestamp field holds one word:
      any other size makes the run fail. */
  lemma ReadFieldsTimestamp(m: Memory, address: Felt)
    requires ReadFields(m, address).Ok?
    ensures |ReadFields(m, address).value[TIMESTAMP_FIELD]| == 1
  {
    ReadFieldsFromTimestamp(m, address, 0, []);
  }

  /** `address + BFieldElement::new(i)`. */
  function Offset(address: Felt, i: nat): Felt
  {
    New(address as int + i)
  }

  /** Memory holds `words` at consecutive addresses from `address`, without
      running past the end of the field. */
  ghost predicate Holds(m: Memory, address: Felt, words: seq<Felt>)
  {
    address as int + |words| < P &&
    forall i: nat :: i < |words| ==> Offset(address, i) in m && m[Offset(address, i)] == words[i]
  }

  lemma HoldsAt(m: Memory, address: Felt, words: seq<Felt>, i: nat)
    requires Holds(m, address, words) && i < |words|
    ensures address as int + i < P
    ensures Offset(address, i) == (address as int + i) as Felt
    ensures Offset(address, i) in m && m[Offset(address, i)] == words[i]
  {
  }

  lemma HoldsSuffix(m: Memory, address: Felt, words: seq<Felt>, k: nat)
    requires Holds(m, address, words) && k <= |words|
    ensures Holds(m, (address as int + k) as Felt, words[k..])
  {
    var next := (address as int + k) as Felt;
    forall i: nat | i < |words[k..]|
      ensures Offset(next, i) in m && m[Offset(next, i)] == words[k..][i]
    {
      HoldsAt(m, address, words, k + i);
    }
  }

  lemma {:induction false} ReadWordsHeld(m: Memory, address: Felt, words: seq<Felt>, n: nat)
    requires Holds(m, address, words) && n < |words|
    ensures ReadWords(m, address, n) == Ok(words[1..1 + n])
  {
    if n > 0 {
      ReadWordsHeld(m, address, words, n - 1);
      HoldsAt(m, address, words, n);
      assert DataAddress(address, n - 1) == (address as int + n) as Felt;
      assert words[1..1 + n] == words[1..n] + [words[n]];
    }
  }

  /** A field laid out as its length followed by its data is read back as
      that data, and reading continues right after it. */
  lemma ReadFieldHeld(m: Memory, address: Felt, data: seq<Felt>, rest: seq<Felt>, mustBeOneWord: bool)
    requires |data| < P
    requires Holds(m, address, [|data| as Felt] + data + rest)
    requires mustBeOneWord ==> |data| == 1
    ensures address as int + 1 + |data| < P
    ensures ReadFieldSpec(m, address, mustBeOneWord) == Ok((data, (address as int + 1 + |data|) as Felt))
    ensures Holds(m, (address as int + 1 + |data|) as Felt, rest)
  {
    var words := [|data| as Felt] + data + rest;
    HoldsAt(m, address, words, 0);
    ReadWordsHeld(m, address, words, |data|);
    assert words[1..1 + |data|] == data;
    HoldsSuffix(m, address, words, 1 + |data|);
    assert words[1 + |data|..] == rest;
  }

  lemma {:induction false} ReadFieldsFromFramed(m: Memory, address: Felt, index: nat, done: seq<seq<Felt>>, fields: seq<seq<Felt>>)
    requires index <= NUM_FIELDS && |done| == index && |fields| == NUM_FIELDS - index
    requires FieldCodec.Framable(fields)
    requires index <= TIMESTAMP_FIELD ==> |fields[TIMESTAMP_FIELD - index]| == 1
    requires Holds(m, address, FieldCodec.Frame(fields))
    ensures ReadFieldsFrom(m, address, index, done) == Ok(done + fields)
    decreases NUM_FIELDS - index
  {
    if index == NUM_FIELDS {
      assert done + fields == done;
    } else {
      var rest := FieldCodec.Frame(fields[1..]);
      assert FieldCodec.Frame(fields) == [|fields[0]| as Felt] + fields[0] + rest;
      ReadFieldHeld(m, address, fields[0], rest, index == TIMESTAMP_FIELD);
      var next := (address as int + 1 + |fields[0]|) as Felt;
      ReadFieldsFromFramed(m, next, index + 1, done + [fields[0]], fields[1..]);
      assert (done + [fields[0]]) + fields[1..] == done + fields;
    }
  }

  /** The stack effect agrees with `TransactionKernel::mast_hash`: when
      memory holds the encoding of a kernel at the popped address, the run
      succeeds and pushes the reversed mast hash of that kernel. */
  lemma ShadowAgreesWithKernelMastHash(
    h: Merkle.Hasher, allocate: Allocator, stack: seq<Felt>, m: Memory,
    k: TK.TransactionKernel, c: TK.KernelCodec)
    requires TK.Encodable(k, c) && |stack| > 0
    requires Holds(m, stack[|stack| - 1], TK.Encode(k, c))
    ensures ReadFields(m, stack[|stack| - 1]) == Ok(TK.MastSequences(k, c))
    ensures Shadow(h, allocate, stack, m).Ok?
    ensures Shadow(h, allocate, stack, m).value.0 == stack[..|stack| - 1] + Reversed(TK.MastHash(h, k, c))
  {
    ReadFieldsFromFramed(m, stack[|stack| - 1], 0, [], TK.MastSequences(k, c));
    assert [] + TK.MastSequences(k, c) == TK.MastSequences(k, c);
    assert FieldLeaves(h, TK.MastSequences(k, c)) == TK.KernelLeaves(h, k, c);
  }

  /** The virtual machine state the snippet works on. */
  class VmState {
    var stack: seq<Felt>
    var memory: Memory

    constructor (stack: seq<Felt>, memory: Memory)
      ensures this.stack == stack && this.memory == memory
    {
      this.stack := stack;
      this.memory := memory;
    }

    /** Reads the first n data words after the size word at `address`. */
    method ReadData(address: Felt, n: nat) returns (r: Result<seq<Felt>>)
      ensures r == ReadWords(memory, address, n)
    {
      var words: seq<Felt> := [];
      var i := 0;
      while i < n
        invariant 0 <= i <= n
        invariant ReadWords(memory, address, i) == Ok(words)
      {
        var key := DataAddress(address, i);
        if key !in memory {
          assert ReadWords(memory, address, i + 1).Panic?;
          ReadWordsPanicPersists(memory, address, i + 1, n);
          return Panic("missing memory word");
        }
        words := words + [memory[key]];
        i := i + 1;
      }
      r := Ok(words);
    }

    /** Reads one length-prefixed field and the address after it. */
    method ReadField(address: Felt, mustBeOneWord: bool) returns (r: Result<(seq<Felt>, Felt)>)
      ensures r == ReadFieldSpec(memory, address, mustBeOneWord)
    {
      if address !in memory {
        return Panic("missing memory word");
      }
      var size := memory[address];
      if mustBeOneWord && size != 1 {
        return Panic("timestamp size is not 1");
      }
      var data := ReadData(address, size);
      match data
      case Panic(reason) => r := Panic(reason);
      case Ok(words) => r := Ok((words, Add(address, Add(1, New(size)))));
    }

    /** Reads the seven fields of the kernel at `address`. */
    method ReadKernelFields(address: Felt) returns (r: Result<seq<seq<Felt>>>)
      ensures r == ReadFields(memory, address)
    {
      var fields: seq<seq<Felt>> := [];
      var current := address;
      var index := 0;
      while index < NUM_FIELDS
        invariant 0 <= index <= NUM_FIELDS && |fields| == index
        invariant ReadFieldsFrom(memory, current, index, fields) == ReadFields(memory, address)
      {
        var field := ReadField(current, index == TIMESTAMP_FIELD);
        match field
        case Panic(reason) =>
          return Panic(reason);
        case Ok((words, next)) =>
          fields := fields + [words];
          current := next;
          index := index + 1;
      }
      r := Ok(fields);
    }

    /** Writes tree digests 1 to 15 into the list at `list`, word by word. */
    method StoreTree(list: Felt, nodes: seq<Digest>)
      requires |nodes| == TREE_SLOTS
      modifies this`memory
      ensures memory == WriteTree(old(memory), list, nodes, TREE_SLOTS - 1)
    {
      ghost var base := memory;
      for i := 1 to TREE_SLOTS
        invariant memory == WriteTree(base, list, nodes, i - 1)
      {
        ghost var before := memory;
        for j := 0 to DIGEST_LENGTH
          invariant memory == WriteDigest(before, list, i, nodes[i], j)
        {
          memory := memory[ElementAddress(list, i, j) := nodes[i][j]];
        }
      }
    }

    /** `rust_shadowing`: on success the kernel address is replaced by the
        five words of the root, word 4 deepest and word 0 on top, and the
        tree is in memory; on a panic the memory is untouched. */
    method RustShadowing(h: Merkle.Hasher, allocate: Allocator) returns (r: Result<()>)
      modifies this
      ensures var s := Shadow(h, allocate, old(stack), old(memory));
        (r.Ok? <==> s.Ok?) &&
        (s.Ok? ==> stack == s.value.0 && memory == s.value.1) &&
        (s.Panic? ==> memory == old(memory))
    {
      if |stack| == 0 {
        return Panic("empty stack");
      }
      var address := stack[|stack| - 1];
      stack := stack[..|stack| - 1];
      var read := ReadKernelFields(address);
      if read.Panic? {
        return Panic(read.reason);
      }
      var leaves := Merkle.Leaves(h, read.value) + [ZERO_DIGEST];
      var nodes := BuildTree(h, leaves);
      var root := nodes[1];

      var list := allocate(REQUESTED_WORDS, memory).0;
      memory := allocate(REQUESTED_WORDS, memory).1;
      memory := memory[list := 0];
      memory := memory[list := TREE_SLOTS as Felt];
      StoreTree(list, nodes);

      // root word 4 is pushed first, word 0 last
      stack := stack + [root[4], root[3], root[2], root[1], root[0]];
      r := Ok(());
    }
  }
}
