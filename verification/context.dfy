/** The i386 context image of the Linux hardware-abstraction layer and the
    construction of a new task's first frame inside its own stack block.
    Memory is modelled as an array of 32-bit words; addresses are byte
    addresses in the 32-bit address space. */
module Context {

  const WORD_LIMIT: int := 0x1_0000_0000

  /** A 32-bit machine word (int32u_t, or a pointer on i386). */
  type Word = x: int | 0 <= x < WORD_LIMIT

  /** A byte address; NULL is the address 0. */
  type Addr = Word

  const NULL: Word := 0
  const WORD_BYTES: nat := 4

  /* Word offsets of the saved registers inside _os_context_t, from the low
     address upwards. */
  const EDI: nat := 0
  const ESI: nat := 1
  const EBP: nat := 2
  const ESP: nat := 3
  const EBX: nat := 4
  const EDX: nat := 5
  const ECX: nat := 6
  const EAX: nat := 7
  const EFLAGS: nat := 8
  const EIP: nat := 9

  /** Size of _os_context_t in words. */
  const CONTEXT_WORDS: nat := 10

  /** Offsets, from the frame's lowest word, of the return-address slot and of
      the argument slot that sit above the context image. */
  const RET_SLOT: nat := 10
  const ARG_SLOT: nat := 11

  /** Words laid down by CreateContext: the context, a return address, the argument. */
  const FRAME_WORDS: nat := 12

  /** The register image _os_context_t. */
  datatype Registers = Registers(
    edi: Word, esi: Word, ebp: Word, esp: Word,
    ebx: Word, edx: Word, ecx: Word, eax: Word,
    eflags: Word, eip: Word)

  /** The words of a register image, lowest address first. */
  function Image(c: Registers): (ws: seq<Word>)
    ensures |ws| == CONTEXT_WORDS
  {
    [c.edi, c.esi, c.ebp, c.esp, c.ebx, c.edx, c.ecx, c.eax, c.eflags, c.eip]
  }

  /** Reads a register image from memory by field offset. */
  function Load(ws: seq<Word>): Registers
    requires CONTEXT_WORDS <= |ws|
  {
    Registers(ws[EDI], ws[ESI], ws[EBP], ws[ESP], ws[EBX],
              ws[EDX], ws[ECX], ws[EAX], ws[EFLAGS], ws[EIP])
  }

  /** The image written into memory and the offsets read back agree: storing a
      register image and loading it gives it back, and every ten words are the
      image of what is loaded from them. */
  lemma ImageLoadRoundTrip(c: Registers, ws: seq<Word>)
    ensures Load(Image(c)) == c
    ensures |ws| == CONTEXT_WORDS ==> Image(Load(ws)) == ws
  {
  }

  /** The register state a new task starts in: everything zero except the
      program counter, which is the task's entry point. */
  function InitialRegisters(entry: Word): (c: Registers)
    ensures c.eip == entry
    ensures c.eax == c.ebx == c.ecx == c.edx == 0
    ensures c.edi == c.esi == c.ebp == c.esp == c.eflags == 0
  {
    Registers(0, 0, 0, 0, 0, 0, 0, 0, 0, entry)
  }

  /** The twelve words of a new task's first frame, lowest address first: the
      context image, a NULL return address, then the argument. */
  function InitialFrame(entry: Word, arg: Word): (ws: seq<Word>)
    ensures |ws| == FRAME_WORDS
  {
    Image(InitialRegisters(entry)) + [NULL, arg]
  }

  /** Cell by cell, the first frame holds the zeroed registers, the entry point
      at the eip offset, NULL as the return address and the argument on top. */
  lemma InitialFrameLayout(entry: Word, arg: Word)
    ensures var ws := InitialFrame(entry, arg);
      && Load(ws[..CONTEXT_WORDS]) == InitialRegisters(entry)
      && ws[EIP] == entry
      && (forall i :: 0 <= i < CONTEXT_WORDS && i != EIP ==> ws[i] == 0)
      && ws[RET_SLOT] == NULL
      && ws[ARG_SLOT] == arg
  {
    var ws := InitialFrame(entry, arg);
    assert ws[..CONTEXT_WORDS] == Image(InitialRegisters(entry));
    ImageLoadRoundTrip(InitialRegisters(entry), ws[..CONTEXT_WORDS]);
  }

  /** Twelve words that hold the initial registers, NULL above them and then
      the argument are exactly the initial frame: the cell-by-cell description
      of a frame determines it. */
  lemma {:induction false} FrameFromCells(ws: seq<Word>, entry: Word, arg: Word)
    requires |ws| == FRAME_WORDS
    requires Load(ws) == InitialRegisters(entry)
    requires ws[RET_SLOT] == NULL && ws[ARG_SLOT] == arg
    ensures ws == InitialFrame(entry, arg)
  {
    ImageLoadRoundTrip(InitialRegisters(entry), ws[..CONTEXT_WORDS]);
    assert Load(ws[..CONTEXT_WORDS]) == Load(ws);
    assert ws == ws[..CONTEXT_WORDS] + [ws[RET_SLOT], ws[ARG_SLOT]];
  }

  /** The address of the lowest word of the first frame of a block of
      `words` words starting at byte address `base`. */
  function FrameTop(base: Addr, words: nat): (top: int)
    requires FRAME_WORDS <= words
    ensures top + WORD_BYTES * FRAME_WORDS == base + WORD_BYTES * words
  {
    base + WORD_BYTES * (words - FRAME_WORDS)
  }

  /** The register stores of _os_create_context: the context at word `ctx`
      gets eip = `entry` and every other register zero. No other word
      changes. */
  method WriteInitialContext(stack: array<Word>, ctx: nat, entry: Word)
    requires ctx + CONTEXT_WORDS <= stack.Length
    modifies stack
    ensures Load(stack[ctx..]) == InitialRegisters(entry)
    ensures forall i :: 0 <= i < stack.Length && !(ctx <= i < ctx + CONTEXT_WORDS) ==> stack[i] == old(stack[i])
  {
    stack[ctx + EAX] := 0;
    stack[ctx + EBX] := 0;
    stack[ctx + ECX] := 0;
    stack[ctx + EDX] := 0;
    stack[ctx + EDI] := 0;
    stack[ctx + ESI] := 0;
    stack[ctx + EBP] := 0;
    stack[ctx + ESP] := 0;
    stack[ctx + EFLAGS] := 0;
    stack[ctx + EIP] := entry;
  }

  /** _os_create_context: lays down, from the top of the block downwards, the
      argument, a NULL return address and a context whose eip is `entry` and
      whose other registers are zero, and returns the address of the lowest of
      these twelve words. Nothing below that word is touched. */
  method CreateContext(stack: array<Word>, base: Addr, entry: Word, arg: Word) returns (top: Addr)
    requires FRAME_WORDS <= stack.Length
    requires base + WORD_BYTES * stack.Length <= WORD_LIMIT
    modifies stack
    ensures top == FrameTop(base, stack.Length)
    ensures forall i :: 0 <= i < stack.Length - FRAME_WORDS ==> stack[i] == old(stack[i])
    ensures stack[stack.Length - FRAME_WORDS..] == InitialFrame(entry, arg)
  {
    // Word indices: the block's end, the argument slot, the return-address
    // slot and the context, each directly below the previous one.
    var bottom := stack.Length;
    var argParam := bottom - 1;
    var retAddr := argParam - 1;
    var ctx := retAddr - CONTEXT_WORDS;

    stack[argParam] := arg;
    stack[retAddr] := NULL;
    WriteInitialContext(stack, ctx, entry);

    top := base + WORD_BYTES * ctx;
    FrameFromCells(stack[ctx..], entry, arg);
  }
}
