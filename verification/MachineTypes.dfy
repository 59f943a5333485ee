/** Machine integers and the few collection helpers several modules share. */
module MachineTypes {

  const U32_SIZE := 0x1_0000_0000
  const U64_SIZE := 0x1_0000_0000_0000_0000

  type Byte = b: int | 0 <= b < 256
  type U16 = n: int | 0 <= n < 0x1_0000
  type U32 = n: int | 0 <= n < U32_SIZE
  type U64 = n: int | 0 <= n < U64_SIZE

  /** Go's int64, and its int on the platforms of interest */
  type Int64 = n: int | -0x8000_0000_0000_0000 <= n < 0x8000_0000_0000_0000

  datatype Option<T> = None | Some(value: T)

  function ToU32(n: int): U32 { n % U32_SIZE }

  function Add64(a: U64, b: int): U64 { (a + b) % U64_SIZE }

  lemma AddMod(a: nat, b: nat)
    ensures Add64(a % U64_SIZE, b) == (a + b) % U64_SIZE
  {
    var (q, r) := ((a % U64_SIZE + b) / U64_SIZE, (a % U64_SIZE + b) % U64_SIZE);
    assert a + b == (a / U64_SIZE + q) * U64_SIZE + r;
  }

  /** The newest n of s. */
  function LastN<T>(s: seq<T>, n: nat): seq<T> { if |s| <= n then s else s[|s| - n..] }
}
