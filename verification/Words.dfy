/** Memory as bytes, and the 64-bit little-endian words that list nodes are made of. */
module Words {
  import opened Bytes
  import opened Ranges
  import opened Alignment

  /** A byte never written reads as zero. */
  type Memory = map<nat, Byte>

  function Read(mem: Memory, a: nat): Byte {
    if a in mem then mem[a] else 0
  }

  /** The number whose bytes lie from `a` up to `end`, the lowest first. */
  function Load(mem: Memory, a: nat, end: nat): nat
    decreases end - a
  {
    if a < end then Read(mem, a) + 256 * Load(mem, a + 1, end) else 0
  }

  /** Memory after the bytes of `v` were written there. */
  function Save(mem: Memory, a: nat, end: nat, v: nat): Memory
    decreases end - a
  {
    if a < end then Save(mem[a := v % 256], a + 1, end, v / 256) else mem
  }

  function Word(mem: Memory, a: nat): nat {
    Load(mem, a, a + 8)
  }

  function Put(mem: Memory, a: nat, v: nat): Memory {
    Save(mem, a, a + 8, v)
  }

  /** One more than the largest number of `n` bytes. */
  function Limit(n: nat): nat {
    if n == 0 then 1 else 256 * Limit(n - 1)
  }

  lemma {:induction false} SaveOutside(mem: Memory, a: nat, end: nat, v: nat, k: nat)
    requires k < a || end <= k
    ensures Read(Save(mem, a, end, v), k) == Read(mem, k)
    decreases end - a
  {
    if a < end { SaveOutside(mem[a := v % 256], a + 1, end, v / 256, k); }
  }

  lemma {:induction false} LoadSame(mem: Memory, mem': Memory, a: nat, end: nat)
    requires forall k :: a <= k < end ==> Read(mem', k) == Read(mem, k)
    ensures Load(mem', a, end) == Load(mem, a, end)
    decreases end - a
  {
    if a < end { LoadSame(mem, mem', a + 1, end); }
  }

  lemma {:induction false} LoadSaved(mem: Memory, a: nat, end: nat, v: nat, n: nat)
    requires end == a + n && v < Limit(n)
    ensures Load(Save(mem, a, end, v), a, end) == v
    decreases n
  {
    if n > 0 {
      LoadSaved(mem[a := v % 256], a + 1, end, v / 256, n - 1);
      SaveOutside(mem[a := v % 256], a + 1, end, v / 256, a);
    }
  }

  /** A word that was written is read back. */
  lemma WordOfPut(mem: Memory, a: nat, v: nat)
    requires v < USIZE_LIMIT
    ensures Word(Put(mem, a, v), a) == v
  {
    assert Limit(8) == USIZE_LIMIT;
    LoadSaved(mem, a, a + 8, v, 8);
  }

  /** A write changes no byte but the eight of its word. */
  lemma PutOutside(mem: Memory, a: nat, v: nat, k: nat)
    requires k < a || a + 8 <= k
    ensures Read(Put(mem, a, v), k) == Read(mem, k)
  {
    SaveOutside(mem, a, a + 8, v, k);
  }

  /** No byte outside the range differs between two memories. */
  ghost predicate SameOutside(changed: Range, mem: Memory, mem': Memory) {
    forall a: nat :: !changed.Has(a) ==> Read(mem', a) == Read(mem, a)
  }

  lemma PutInside(mem: Memory, p: nat, v: nat, block: Range)
    requires block.start <= p && p + 8 <= block.end
    ensures SameOutside(block, mem, Put(mem, p, v))
  {
    forall a: nat | !block.Has(a) ensures Read(Put(mem, p, v), a) == Read(mem, a) {
      PutOutside(mem, p, v, a);
    }
  }

  lemma WordSame(mem: Memory, mem': Memory, a: nat)
    requires forall k :: a <= k < a + 8 ==> Read(mem', k) == Read(mem, k)
    ensures Word(mem', a) == Word(mem, a)
  {
    LoadSame(mem, mem', a, a + 8);
  }

  /** Nor does it change a word it does not overlap. */
  lemma WordBeside(mem: Memory, a: nat, v: nat, b: nat)
    requires a + 8 <= b || b + 8 <= a
    ensures Word(Put(mem, a, v), b) == Word(mem, b)
  {
    forall k | b <= k < b + 8 ensures Read(Put(mem, a, v), k) == Read(mem, k) {
      PutOutside(mem, a, v, k);
    }
    WordSame(mem, Put(mem, a, v), b);
  }
}
