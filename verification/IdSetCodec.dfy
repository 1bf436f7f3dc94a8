// The compressed text form of a set of class ids.
// Models _encode_id_set and _hex_str of libmink/SDK/QTVM/SecureAppMetadata.py, together with the
// reader its grammar calls for: numbers separated by ',', each followed by ':' and mask digits if any.

module IdSetCodec {

  // ---------------------------------------------------------------- hexadecimal

  const DIGITS := "0123456789abcdef"

  function Digit(d: nat): char
    requires d < 16
  {
    DIGITS[d]
  }

  /** '%x' % n */
  function Hex(n: nat): string {
    if n < 16 then [Digit(n)] else Hex(n / 16) + [Digit(n % 16)]
  }

  predicate IsHexDigit(c: char) {
    '0' <= c <= '9' || 'a' <= c <= 'f'
  }

  function Value(c: char): nat
    requires IsHexDigit(c)
  {
    if c <= '9' then c as nat - '0' as nat else 10 + (c as nat - 'a' as nat)
  }

  lemma DigitValue(d: nat)
    requires d < 16
    ensures IsHexDigit(Digit(d)) && Value(Digit(d)) == d
  {
  }

  /** Only zero starts with a zero. */
  lemma {:induction false} HexIsCanonical(n: nat)
    ensures Hex(n) != "" && (Hex(n)[0] == '0' <==> n == 0)
  {
    if n >= 16 { HexIsCanonical(n / 16); }
  }

  // ---------------------------------------------------------------- mask digits

  /** Bit i of the mask digit d is set. */
  predicate Bit(d: nat, i: nat)
    requires i < 4
  {
    if i == 0 then d % 2 >= 1 else if i == 1 then d % 4 >= 2 else if i == 2 then d % 8 >= 4 else d % 16 >= 8
  }

  /** d | 1 << i */
  function SetBit(d: nat, i: nat): nat
    requires i < 4
  {
    if Bit(d, i) then d else d + if i == 0 then 1 else if i == 1 then 2 else if i == 2 then 4 else 8
  }

  function OfBits(b0: bool, b1: bool, b2: bool, b3: bool): nat {
    (if b0 then 1 else 0) + (if b1 then 2 else 0) + (if b2 then 4 else 0) + (if b3 then 8 else 0)
  }

  lemma BitsOf(b0: bool, b1: bool, b2: bool, b3: bool)
    ensures var d := OfBits(b0, b1, b2, b3);
            d < 16 && Bit(d, 0) == b0 && Bit(d, 1) == b1 && Bit(d, 2) == b2 && Bit(d, 3) == b3
  {
  }

  lemma DigitIsBits(d: nat)
    requires d < 16
    ensures d == OfBits(Bit(d, 0), Bit(d, 1), Bit(d, 2), Bit(d, 3))
  {
  }

  lemma SetBitSets(d: nat, i: nat, j: nat)
    requires d < 16 && i < 4 && j < 4
    ensures 0 < SetBit(d, i) < 16
    ensures Bit(SetBit(d, i), j) <==> Bit(d, j) || j == i
  {
    hide Bit;
    DigitIsBits(d);
    BitsOf(Bit(d, 0) || i == 0, Bit(d, 1) || i == 1, Bit(d, 2) || i == 2, Bit(d, 3) || i == 3);
  }

  /** The ids a mask digit at position pos stands for. */
  function Ids(pos: nat, d: nat): set<nat> {
    set i: nat | 0 <= i < 4 && Bit(d, i) :: pos + i
  }

  lemma NoIds(pos: nat)
    ensures Ids(pos, 0) == {}
  {
  }

  lemma SetBitAdds(pos: nat, d: nat, i: nat)
    requires d < 16 && i < 4
    ensures 0 < SetBit(d, i) < 16 && Ids(pos, SetBit(d, i)) == Ids(pos, d) + {pos + i}
  {
    forall j: nat | j < 4 ensures Bit(SetBit(d, i), j) <==> Bit(d, j) || j == i {
      SetBitSets(d, i, j);
    }
    SetBitSets(d, i, i);
  }

  // ---------------------------------------------------------------- the reader

  /** Before a number, in the number n, or in the mask with the next digit at pos; `got` was read. */
  datatype Reader = Start(got: set<nat>) | Number(n: nat, got: set<nat>) | Mask(pos: nat, got: set<nat>) | Bad

  function Next(r: Reader, c: char): Reader {
    match r
    case Start(got) => if IsHexDigit(c) then Number(Value(c), got) else Bad
    case Number(n, got) =>
      if IsHexDigit(c) then Number(16 * n + Value(c), got)
      else if c == ',' then Start(got + {n})
      else if c == ':' then Mask(n + 1, got + {n})
      else Bad
    case Mask(pos, got) =>
      if IsHexDigit(c) then Mask(pos + 4, got + Ids(pos, Value(c)))
      else if c == ',' then Start(got)
      else Bad
    case Bad => Bad
  }

  function Read(s: string): Reader {
    if s == "" then Start({}) else Next(Read(s[..|s| - 1]), s[|s| - 1])
  }

  datatype Decoded = IdSet(ids: set<nat>) | Malformed

  function Decode(s: string): Decoded {
    if s == "" then IdSet({})
    else match Read(s)
         case Number(n, got) => IdSet(got + {n})
         case Mask(_, got) => IdSet(got)
         case _ => Malformed
  }

  lemma ReadSnoc(s: string, c: char)
    ensures Read(s + [c]) == Next(Read(s), c)
  {
    assert (s + [c])[..|s|] == s;
  }

  lemma {:induction false} ReadHex(s: string, n: nat)
    requires Read(s).Start?
    ensures Read(s + Hex(n)) == Number(n, Read(s).got)
    ensures forall c :: c in Hex(n) ==> IsHexDigit(c)
    ensures |Hex(n)| > 0
  {
    if n < 16 {
      DigitValue(n);
      ReadSnoc(s, Digit(n));
    } else {
      ReadHex(s, n / 16);
      DigitValue(n % 16);
      ReadSnoc(s + Hex(n / 16), Digit(n % 16));
      assert s + Hex(n) == s + Hex(n / 16) + [Digit(n % 16)];
    }
  }

  // ---------------------------------------------------------------- the writer

  /** The ids written the plain way: hexadecimal numbers separated by commas. */
  function Plain(ids: seq<nat>): string {
    if |ids| == 0 then ""
    else if |ids| == 1 then Hex(ids[0])
    else Plain(ids[..|ids| - 1]) + "," + Hex(ids[|ids| - 1])
  }

  ghost predicate Increasing(ids: seq<nat>) {
    forall i, j :: 0 <= i < j < |ids| ==> ids[i] < ids[j]
  }

  /** No character of an id set can be taken for a separator of records. */
  ghost predicate Clean(s: string) {
    forall c :: c in s ==> IsHexDigit(c) || c == ',' || c == ':'
  }

  /** What the text `s`, the mask position and the pending mask digit say about the ids so far. */
  ghost predicate Tells(s: string, pos: nat, digit: nat, ids: set<nat>) {
    && digit < 16 && Clean(s)
    && (s == "" ==> pos == 0 && digit == 0 && ids == {})
    && (s != "" && digit == 0 ==> Read(s).Number? && pos == Read(s).n + 1 && ids == Read(s).got + {Read(s).n})
    && (s != "" && digit > 0 ==> Read(s).Mask? && pos == Read(s).pos && ids == Read(s).got + Ids(pos, digit))
  }

  /** The text with the pending mask digit written out. */
  function Flushed(s: string, digit: nat): string
    requires digit < 16
  {
    if digit > 0 then s + Hex(digit) else s
  }

  /** Written out, the text decodes to the ids so far. */
  lemma FlushDecodes(s: string, pos: nat, digit: nat, ids: set<nat>)
    requires Tells(s, pos, digit, ids)
    ensures Decode(Flushed(s, digit)) == IdSet(ids) && Clean(Flushed(s, digit))
    ensures |Flushed(s, digit)| == |s| + if digit > 0 then 1 else 0
    ensures digit > 0 ==> Read(Flushed(s, digit)) == Mask(pos + 4, ids)
  {
    if digit > 0 {
      DigitValue(digit);
      ReadSnoc(s, Digit(digit));
    }
  }

  lemma CommaStarts(t: string, ids: set<nat>)
    requires t != "" && Decode(t) == IdSet(ids)
    ensures Read(t + ",") == Start(ids)
  {
    ReadSnoc(t, ',');
  }

  lemma NumberTells(t: string, id: nat, ids: set<nat>)
    requires Clean(t) && Read(t) == Start(ids)
    ensures Tells(t + Hex(id), id + 1, 0, ids + {id}) && |Hex(id)| > 0
  {
    ReadHex(t, id);
  }

  /** The branch of _encode_id_set that writes the id as a number. */
  method AddNumber(s0: string, pos0: nat, digit0: nat, id: nat, ghost ids: set<nat>)
    returns (s: string, pos: nat, digit: nat)
    requires Tells(s0, pos0, digit0, ids)
    ensures Tells(s, pos, digit, ids + {id}) && pos == id + 1 && digit == 0 && s != ""
    ensures |s| == |s0| + (if digit0 > 0 then 1 else 0) + (if s0 == "" then 0 else 1) + |Hex(id)|
  {
    FlushDecodes(s0, pos0, digit0, ids);
    s := s0;
    if digit0 > 0 {
      s := s + Hex(digit0);
    }
    if s != "" {
      CommaStarts(s, ids);
      s := s + ",";
    }
    NumberTells(s, id, ids);
    s := s + Hex(id);
    pos, digit := id + 1, 0;
  }

  lemma ColonMasks(s: string, pos: nat, ids: set<nat>)
    requires Tells(s, pos, 0, ids) && s != ""
    ensures Read(s + ":") == Mask(pos, ids) && Clean(s + ":")
  {
    ReadSnoc(s, ':');
  }

  /** A mask digit written out moves the position by four. */
  lemma DigitMasks(s: string, pos: nat, digit: nat)
    requires digit < 16 && Read(s).Mask? && Read(s).pos == pos && Clean(s)
    ensures Read(s + Hex(digit)) == Mask(pos + 4, Read(s).got + Ids(pos, digit))
    ensures Clean(s + Hex(digit)) && |Hex(digit)| == 1
  {
    DigitValue(digit);
    ReadSnoc(s, Digit(digit));
  }

  /** The inner loop: pending digits are written out until the id falls into the next one. */
  method PushDigits(s0: string, pos0: nat, digit0: nat, id: nat, ghost ids: set<nat>)
    returns (s: string, pos: nat, digit: nat)
    requires digit0 < 16 && Read(s0).Mask? && Read(s0).pos == pos0 <= id && Clean(s0)
    requires Read(s0).got + Ids(pos0, digit0) == ids
    ensures digit < 16 && Read(s).Mask? && Read(s).pos == pos <= id < pos + 4 && Clean(s)
    ensures Read(s).got + Ids(pos, digit) == ids
    ensures |s| == |s0| + (id - pos0) / 4 && pos == pos0 + 4 * ((id - pos0) / 4)
  {
    hide Read, Ids, Clean, Hex;
    s, pos, digit := s0, pos0, digit0;
    while id >= pos + 4
      invariant pos0 <= pos <= id && digit < 16
      invariant Read(s).Mask? && Read(s).pos == pos && Clean(s) && Read(s).got + Ids(pos, digit) == ids
      invariant |s| + (id - pos) / 4 == |s0| + (id - pos0) / 4 && pos + 4 * ((id - pos) / 4) == pos0 + 4 * ((id - pos0) / 4)
    {
      DigitMasks(s, pos, digit);
      s := s + Hex(digit);
      digit := 0;
      pos := pos + 4;
      NoIds(pos);
    }
  }

  /** The branch of _encode_id_set that sets the id's bit in a mask. */
  method AddMaskBit(s0: string, pos0: nat, digit0: nat, id: nat, ghost ids: set<nat>)
    returns (s: string, pos: nat, digit: nat)
    requires Tells(s0, pos0, digit0, ids) && s0 != "" && id >= pos0
    ensures Tells(s, pos, digit, ids + {id}) && digit > 0 && pos == pos0 + 4 * ((id - pos0) / 4) && s != ""
    ensures |s| == |s0| + (if digit0 == 0 then 1 else 0) + (id - pos0) / 4
  {
    hide Read, Ids, SetBit, Clean;
    s := s0;
    if digit0 == 0 {
      ColonMasks(s, pos0, ids);
      s := s + ":";
      NoIds(pos0);
    }
    s, pos, digit := PushDigits(s, pos0, digit0, id, ids);
    SetBitAdds(pos, digit, id - pos);
    digit := SetBit(digit, id - pos);
  }

  /** sorted(set(xs)) */
  function SortedSet(xs: seq<nat>): (r: seq<nat>)
    ensures Increasing(r)
    ensures forall x :: x in r <==> x in xs
  {
    if xs == [] then [] else Insert(xs[0], SortedSet(xs[1..]))
  }

  lemma Above(x: nat, s: seq<nat>, t: seq<nat>)
    requires Increasing(s) && s != [] && x > s[0] && forall y :: y in t ==> y in s[1..] || y == x
    ensures forall i :: 0 <= i < |t| ==> t[i] > s[0]
  {
    forall i | 0 <= i < |t| ensures t[i] > s[0] {
      assert t[i] in t;
      if t[i] != x {
        var j :| 0 <= j < |s| - 1 && s[1..][j] == t[i];
        assert s[0] < s[j + 1];
      }
    }
  }

  function Insert(x: nat, s: seq<nat>): (r: seq<nat>)
    requires Increasing(s)
    ensures Increasing(r)
    ensures forall y :: y in r <==> y in s || y == x
  {
    if s == [] || x < s[0] then [x] + s
    else if x == s[0] then s
    else
      var t := Insert(x, s[1..]);
      Above(x, s, t);
      [s[0]] + t
  }

  ghost function SetOf(xs: seq<nat>): set<nat> {
    set x | x in xs
  }

  lemma Snoc(ids: seq<nat>, k: nat)
    requires k < |ids|
    ensures SetOf(ids[..k + 1]) == SetOf(ids[..k]) + {ids[k]}
    ensures |Plain(ids[..k + 1])| == |Plain(ids[..k])| + (if k == 0 then 0 else 1) + |Hex(ids[k])|
  {
    assert ids[..k + 1] == ids[..k] + [ids[k]] && ids[..k + 1][..k] == ids[..k];
  }

  lemma SameSet(xs: seq<nat>)
    ensures SetOf(SortedSet(xs)) == SetOf(xs) && (SortedSet(xs) == [] <==> xs == [])
  {
    assert xs != [] ==> xs[0] in SortedSet(xs);
    assert SortedSet(xs) != [] ==> SortedSet(xs)[0] in xs;
  }

  /** The number of characters written, the pending mask digit among them. */
  function Length(s: string, digit: nat): nat {
    |s| + if digit > 0 then 1 else 0
  }

  /** The length of the text, all digits written, with the id added as a number. */
  function AsNumber(s: string, digit: nat, id: nat): nat {
    Length(s, digit) + (if s == "" then 0 else 1) + |Hex(id)|
  }

  /** The same with the id added as a mask bit: the colon of a new mask, the digits before the bit's, and
      the bit's own, which may be the pending one. */
  function AsMaskBit(s: string, pos: nat, digit: nat, id: nat): nat
    requires id >= pos
  {
    |s| + (if digit == 0 then 1 else 0) + (id - pos) / 4 + 1
  }

  lemma TellsNothing(s: string, pos: nat, digit: nat, ids: set<nat>)
    requires Tells(s, pos, digit, ids)
    ensures digit < 16 && (s == "" ==> digit == 0 && pos == 0)
  {
  }

  /** The body of the loop of _encode_id_set: the id is added in the shorter way, in a mask if both are
      equally short. */
  method AddId(s0: string, pos0: nat, digit0: nat, id: nat, ghost ids: set<nat>)
    returns (s: string, pos: nat, digit: nat)
    requires Tells(s0, pos0, digit0, ids) && id >= pos0
    ensures Tells(s, pos, digit, ids + {id}) && s != ""
    ensures digit == 0 <==> s0 == "" || AsNumber(s0, digit0, id) < AsMaskBit(s0, pos0, digit0, id)
    ensures Length(s, digit) == if digit == 0 then AsNumber(s0, digit0, id) else AsMaskBit(s0, pos0, digit0, id)
    ensures pos == (if digit == 0 then id + 1 else pos0 + 4 * ((id - pos0) / 4)) && pos <= id + 1
    ensures Length(s, digit) <= AsNumber(s0, digit0, id) && |Hex(id)| > 0
  {
    hide Tells;
    TellsNothing(s0, pos0, digit0, ids);
    HexIsCanonical(id);
    var idText := Hex(id);
    var numCost := |idText| + if digit0 > 0 then 1 else -1;
    var maskCost := (id - pos0) / 4;
    if s0 == "" || maskCost > numCost {
      s, pos, digit := AddNumber(s0, pos0, digit0, id, ids);
    } else {
      s, pos, digit := AddMaskBit(s0, pos0, digit0, id, ids);
    }
  }

  /** One id follows the other. */
  ghost predicate Consecutive(ids: seq<nat>) {
    forall i :: 0 < i < |ids| ==> ids[i] == ids[0] + i
  }

  /** The n ids from a on. */
  ghost function Run(a: nat, n: nat): (r: seq<nat>)
    ensures |r| == n && (n > 0 ==> r[0] == a) && Consecutive(r)
  {
    seq(n, i requires 0 <= i => a + i)
  }

  /** The first of n consecutive ids takes a number, the others a bit each. */
  function RunLength(a: nat, n: nat): int {
    if n == 0 then 0 else |Hex(a)| + if n == 1 then 0 else 1 + (n + 2) / 4
  }

  /** How consecutive ids stand after the first k of them. */
  ghost predicate RunsOn(ids: seq<nat>, k: nat, s: string, pos: nat, digit: nat) {
    Consecutive(ids) && 0 < k <= |ids| ==>
      && Length(s, digit) == RunLength(ids[0], k)
      && (digit == 0 <==> k == 1)
      && pos == ids[0] + 1 + if k == 1 then 0 else 4 * ((k - 2) / 4)
  }

  lemma RunGoesOn(ids: seq<nat>, k: nat, s0: string, pos0: nat, digit0: nat, s: string, pos: nat, digit: nat)
    requires k < |ids| && RunsOn(ids, k, s0, pos0, digit0) && (s0 == "" <==> k == 0) && (k == 0 ==> digit0 == 0)
    requires ids[k] >= pos0 && |Hex(ids[k])| > 0
    requires digit == 0 <==> s0 == "" || AsNumber(s0, digit0, ids[k]) < AsMaskBit(s0, pos0, digit0, ids[k])
    requires Length(s, digit) == if digit == 0 then AsNumber(s0, digit0, ids[k]) else AsMaskBit(s0, pos0, digit0, ids[k])
    requires pos == if digit == 0 then ids[k] + 1 else pos0 + 4 * ((ids[k] - pos0) / 4)
    ensures RunsOn(ids, k + 1, s, pos, digit)
  {
    hide Hex;
    if k >= 2 && Consecutive(ids) {
      var q := (k - 2) / 4;
      assert ids[k] - pos0 == k - 1 - 4 * q;
    }
  }

  lemma RunEnds(ids: seq<nat>, s: string, pos: nat, digit: nat)
    requires RunsOn(ids, |ids|, s, pos, digit)
    ensures Consecutive(ids) && ids != [] ==> Length(s, digit) == RunLength(ids[0], |ids|)
  {
  }

  lemma StartsEmpty(ids: seq<nat>)
    ensures Tells("", 0, 0, SetOf(ids[..0])) && |Plain(ids[..0])| == 0 && RunsOn(ids, 0, "", 0, 0)
  {
  }

  lemma Written(s: string, digit: nat, id: nat)
    ensures AsNumber(s, digit, id) == Length(s, digit) + (if s == "" then 0 else 1) + |Hex(id)|
  {
  }

  /** The loop of _encode_id_set. */
  method AddAll(ids: seq<nat>) returns (s: string, pos: nat, digit: nat)
    requires Increasing(ids)
    ensures Tells(s, pos, digit, SetOf(ids)) && (s == "" <==> ids == [])
    ensures Length(s, digit) <= |Plain(ids)|
    ensures Consecutive(ids) && ids != [] ==> Length(s, digit) == RunLength(ids[0], |ids|)
  {
    hide Tells, Hex, Plain, AsNumber, AsMaskBit, RunsOn;
    s, pos, digit := "", 0, 0;
    StartsEmpty(ids);
    for k := 0 to |ids|
      invariant Tells(s, pos, digit, SetOf(ids[..k])) && (s == "" <==> k == 0)
      invariant k > 0 ==> pos <= ids[k - 1] + 1
      invariant Length(s, digit) <= |Plain(ids[..k])|
      invariant RunsOn(ids, k, s, pos, digit)
    {
      Snoc(ids, k);
      ghost var s0, pos0, digit0 := s, pos, digit;
      TellsNothing(s, pos, digit, SetOf(ids[..k]));
      s, pos, digit := AddId(s, pos, digit, ids[k], SetOf(ids[..k]));
      Written(s0, digit0, ids[k]);
      RunGoesOn(ids, k, s0, pos0, digit0, s, pos, digit);
    }
    assert ids[..|ids|] == ids;
    RunEnds(ids, s, pos, digit);
  }

  /** _encode_id_set: the text decodes to exactly the given ids, and is never longer than the plain
      list of them, whatever the cost estimate picks on the way. */
  method EncodeIdSet(iterable: seq<nat>) returns (s: string)
    ensures Decode(s) == IdSet(SetOf(iterable))
    ensures |s| <= |Plain(SortedSet(iterable))|
    ensures Clean(s) && (s == "" <==> iterable == [])
    ensures forall a: nat, n: nat :: n > 0 && SortedSet(iterable) == Run(a, n) ==> |s| == RunLength(a, n)
  {
    var ids := SortedSet(iterable);
    var maskPos, maskDigit;
    s, maskPos, maskDigit := AddAll(ids);
    FlushDecodes(s, maskPos, maskDigit, SetOf(ids));
    SameSet(iterable);
    if maskDigit > 0 {
      s := s + Hex(maskDigit);
    }
  }
}
