/**
 * The terminal settings record (Linux `struct termios` as the client
 * declares it) and the raw-mode transformation that makeRaw applies to it.
 * Flag values are those of Go's syscall package on Linux.
 */
module Terminal {

  const ICANON: bv32 := 0x2
  const ECHO: bv32 := 0x8
  const VTIME: nat := 5
  const VMIN: nat := 6
  const NCCS: nat := 20

  /** The `Cc [20]uint8` array of control characters. */
  type ControlChars = s: seq<bv8> | |s| == NCCS witness seq(NCCS, _ => 0 as bv8)

  datatype Termios = Termios(
    iflag: bv32,
    oflag: bv32,
    cflag: bv32,
    lflag: bv32,
    cc: ControlChars,
    ispeed: bv32,
    ospeed: bv32)

  /** Canonical input and echo are off, and a read returns after one byte with no timer. */
  predicate IsRaw(t: Termios) {
    t.lflag & (ICANON | ECHO) == 0 && t.cc[VMIN] == 1 && t.cc[VTIME] == 0
  }

  /** `u` agrees with `t` in every field and flag bit that raw mode does not set. */
  predicate SameOutsideRaw(t: Termios, u: Termios) {
    && u.iflag == t.iflag && u.oflag == t.oflag && u.cflag == t.cflag
    && u.ispeed == t.ispeed && u.ospeed == t.ospeed
    && u.lflag & !(ICANON | ECHO) == t.lflag & !(ICANON | ECHO)
    && forall i :: 0 <= i < NCCS && i != VMIN && i != VTIME ==> u.cc[i] == t.cc[i]
  }

  /** The settings makeRaw applies: `Lflag &^= ICANON|ECHO`, `Cc[VMIN] = 1`, `Cc[VTIME] = 0`. */
  function RawSettings(t: Termios): (r: Termios)
    ensures IsRaw(r) && SameOutsideRaw(t, r)
  {
    t.(lflag := t.lflag & !(ICANON | ECHO), cc := t.cc[VMIN := 1][VTIME := 0])
  }

  /** A raw record that keeps everything else of `t` is the record makeRaw applies to `t`. */
  lemma OnlyRawRecordKeepingTheRest(t: Termios, u: Termios)
    requires IsRaw(u) && SameOutsideRaw(t, u)
    ensures u == RawSettings(t)
  {
    var r := RawSettings(t);
    assert u.lflag == r.lflag;
    assert u.cc == r.cc;
  }

  /**
   * The raw settings are exactly the raw records that keep everything else
   * of `t`: makeRaw changes the two flag bits and the two control characters
   * and nothing more.
   */
  lemma RawSettingsUnique(t: Termios, u: Termios)
    ensures u == RawSettings(t) <==> IsRaw(u) && SameOutsideRaw(t, u)
  {
    if IsRaw(u) && SameOutsideRaw(t, u) {
      OnlyRawRecordKeepingTheRest(t, u);
    }
  }

  /** Applying raw mode to a terminal already in raw mode changes nothing, and only then. */
  lemma RawSettingsFixedExactlyWhenRaw(t: Termios)
    ensures RawSettings(t) == t <==> IsRaw(t)
  {
    if IsRaw(t) {
      OnlyRawRecordKeepingTheRest(t, t);
    }
  }
}
