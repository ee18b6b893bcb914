// The legend at the head of the script, and that the masks printed follow it.

module Legend {
  import opened Triangular
  import opened PrintLog

  datatype Operation =
    | Getattr | Access | Readlink | Readdir | Mknod | Mkdir | Symlink
    | Unlink | Rmdir | Rename | Link | Chmod | Chown | Truncate
    | Utime | Utimens | Open | Read | Write | Statfs | Release
    | Fsync | Setxattr | Getxattr | Listxattr | Removexattr

  // The flag that the legend has for an operation ...
  function Flag(op: Operation): nat {
    match op
    case Getattr => 0x1 case Access => 0x2 case Readlink => 0x4 case Readdir => 0x8
    case Mknod => 0x10 case Mkdir => 0x20 case Symlink => 0x40 case Unlink => 0x80
    case Rmdir => 0x100 case Rename => 0x200 case Link => 0x400 case Chmod => 0x800
    case Chown => 0x1000 case Truncate => 0x2000 case Utime => 0x4000 case Utimens => 0x8000
    case Open => 0x1_0000 case Read => 0x2_0000 case Write => 0x4_0000 case Statfs => 0x8_0000
    case Release => 0x10_0000 case Fsync => 0x20_0000 case Setxattr => 0x40_0000 case Getxattr => 0x80_0000
    case Listxattr => 0x100_0000 case Removexattr => 0x200_0000
  }

  // ... and its letter.
  function Letter(op: Operation): char {
    match op
    case Getattr => 'G' case Access => 'A' case Readlink => 'r' case Readdir => 'd' case Mknod => 'K'
    case Mkdir => 'M' case Symlink => 'S' case Unlink => 'u' case Rmdir => 'D' case Rename => 'N'
    case Link => 'L' case Chmod => 'm' case Chown => 'o' case Truncate => 'T' case Utime => 'n'
    case Utimens => 's' case Open => 'O' case Read => 'R' case Write => 'W' case Statfs => 't'
    case Release => 'e' case Fsync => 'F' case Setxattr => 'X' case Getxattr => 'x' case Listxattr => 'l'
    case Removexattr => 'v'
  }

  function Dots(n: nat): string {
    seq(n, _ => '.')
  }

  // Where its symbol stands.
  function Place(op: Operation): (k: nat)
    ensures k < 26
  {
    match op
    case Getattr => 0 case Access => 1 case Readlink => 2 case Readdir => 3 case Mknod => 4
    case Mkdir => 5 case Symlink => 6 case Unlink => 7 case Rmdir => 8 case Rename => 9
    case Link => 10 case Chmod => 11 case Chown => 12 case Truncate => 13 case Utime => 14
    case Utimens => 15 case Open => 16 case Read => 17 case Write => 18 case Statfs => 19
    case Release => 20 case Fsync => 21 case Setxattr => 22 case Getxattr => 23 case Listxattr => 24
    case Removexattr => 25
  }

  lemma PlaceOfFlag(op: Operation)
    ensures Pow2(Place(op)) == Flag(op)
  {
    assert Pow2(8) == 0x100 && Pow2(16) == 0x1_0000 && Pow2(24) == 0x100_0000;
  }

  lemma PlaceOfLetter(op: Operation)
    ensures |SYMBOLS| == 26 && SYMBOLS[Place(op)] == Letter(op)
  {
  }

  // A log entry of one operation shows its letter and nothing but dots around it.
  lemma LegendHolds(op: Operation)
    ensures var k := Place(op);
      MaskOf(Flag(op)) == Dots(k) + [Letter(op)] + Dots(25 - k)
  {
    var k := Place(op);
    PlaceOfFlag(op);
    PlaceOfLetter(op);
    var mask := MaskOf(Flag(op));
    forall i | 0 <= i < |SYMBOLS| ensures mask[i] == if i == k then Letter(op) else '.' {
      MaskOfFlag(k, i);
    }
  }

  // So no two operations show alike.
  lemma ToldApart(a: Operation, b: Operation)
    ensures MaskOf(Flag(a)) == MaskOf(Flag(b)) ==> a == b
  {
    hide MaskOf, Flag, Letter, Place;
    LegendHolds(a);
    LegendHolds(b);
    var j, k := Place(a), Place(b);
    var mask := MaskOf(Flag(a));
    if mask == MaskOf(Flag(b)) {
      assert mask[j] == Letter(a) && mask[k] == Letter(b);
      SamePlace(a, b);
    }
  }

  lemma SamePlace(a: Operation, b: Operation)
    ensures Place(a) == Place(b) ==> a == b
    ensures Letter(a) != '.'
  {}
}
