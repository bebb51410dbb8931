/** Timestamp identifiers: thirteen sortable characters for 53 bits of
    microseconds and a 10-bit clock identifier. */
module Tids {

  const ALPHABET := "234567abcdefghijklmnopqrstuvwxyz"
  const LEN: nat := 13
  const CLOCKS: nat := 1024
  const TIMES: nat := 0x20_0000_0000_0000

  /** The value shifted right by that many groups of five bits. */
  function ShiftRight(value: nat, groups: nat): nat {
    if groups == 0 then value else ShiftRight(value, groups - 1) / 32
  }

  /** The 63-bit value of a time and a clock identifier, each truncated. */
  function Value(micros: nat, clock: nat): nat {
    micros % TIMES * CLOCKS + clock % CLOCKS
  }

  /** The alphabet's letters, by place. */
  function Letter(digit: nat): char
    requires digit < 32
  {
    if digit < 6 then ('2' as nat + digit) as char else ('a' as nat + digit - 6) as char
  }

  predicate Sortable(c: char) {
    '2' <= c <= '7' || 'a' <= c <= 'z'
  }

  lemma LettersAreTheAlphabet(digit: nat)
    requires digit < 32
    ensures ALPHABET[digit] == Letter(digit)
  {
  }

  lemma SortableIsInAlphabet(c: char)
    ensures Sortable(c) <==> c in ALPHABET
  {
    if Sortable(c) {
      var digit := if c <= '7' then c as nat - '2' as nat else c as nat - 'a' as nat + 6;
      LettersAreTheAlphabet(digit);
    }
  }

  /** The last `n` digits of a value in base 32. */
  function Digits(value: nat, n: nat): (s: string)
    ensures |s| == n
  {
    if n == 0 then "" else Digits(value / 32, n - 1) + [Letter(value % 32)]
  }

  function Tid(micros: nat, clock: nat): string {
    Digits(Value(micros, clock), LEN)
  }

  predicate IsValid(s: string) {
    |s| == LEN && (forall c | c in s :: c in ALPHABET) && s[0] <= 'b'
  }

  /** The order of strings of one length. */
  predicate Less(s: string, t: string) {
    s != "" && t != "" && (s[0] < t[0] || (s[0] == t[0] && Less(s[1..], t[1..])))
  }

  method FromParts(micros: nat, clock: nat) returns (out: string)
    ensures out == Tid(micros, clock)
  {
    var value := micros % TIMES * CLOCKS + clock % CLOCKS;
    out := "";
    for i := 0 to LEN
      invariant out == Digits(ShiftRight(value, LEN - i), i)
    {
      var index := ShiftRight(value, LEN - 1 - i) % 32;
      LettersAreTheAlphabet(index);
      out := out + [ALPHABET[index]];
    }
  }

  // ---- validity ----

  /** A character's place in the alphabet. */
  function DigitOf(c: char): nat {
    if '2' <= c <= '7' then c as nat - '2' as nat else if 'a' <= c <= 'z' then c as nat - 'a' as nat + 6 else 0
  }

  lemma {:induction false} DigitsInAlphabet(value: nat, n: nat)
    ensures forall c | c in Digits(value, n) :: Sortable(c)
  {
    if n > 0 {
      DigitsInAlphabet(value / 32, n - 1);
    }
  }

  /** The number a string of digits spells. */
  function Spelled(s: string): nat {
    if s == "" then 0 else Spelled(s[..|s| - 1]) * 32 + DigitOf(s[|s| - 1])
  }

  function Limit(n: nat): nat {
    if n == 0 then 1 else Limit(n - 1) * 32
  }

  lemma {:induction false} SpelledDigits(value: nat, n: nat)
    requires value < Limit(n)
    ensures Spelled(Digits(value, n)) == value
  {
    if n > 0 {
      SpelledDigits(value / 32, n - 1);
    }
  }

  lemma DigitsSnoc(value: nat, n: nat, digit: nat)
    requires digit < 32
    ensures Digits(value * 32 + digit, n + 1) == Digits(value, n) + [Letter(digit)]
  {
    assert (value * 32 + digit) / 32 == value && (value * 32 + digit) % 32 == digit;
  }

  lemma LetterOfDigit(c: char)
    requires Sortable(c)
    ensures DigitOf(c) < 32 && Letter(DigitOf(c)) == c
  {
  }

  lemma {:induction false} SpelledBound(s: string)
    requires forall c | c in s :: Sortable(c)
    ensures Spelled(s) < Limit(|s|)
  {
    if s != "" {
      SpelledBound(s[..|s| - 1]);
      assert s[|s| - 1] in s;
      LetterOfDigit(s[|s| - 1]);
    }
  }

  lemma SpelledSnoc(head: string, last: char)
    ensures Spelled(head + [last]) == Spelled(head) * 32 + DigitOf(last)
  {
    assert (head + [last])[..|head|] == head;
  }

  lemma {:induction false} DigitsSpelled(s: string)
    requires forall c | c in s :: Sortable(c)
    ensures Digits(Spelled(s), |s|) == s
  {
    if s != "" {
      var head, last := s[..|s| - 1], s[|s| - 1];
      DigitsSpelled(head);
      assert last in s;
      LetterOfDigit(last);
      assert s == head + [last] && |head| + 1 == |s|;
      SpelledSnoc(head, last);
      DigitsSnoc(Spelled(head), |head|, DigitOf(last));
    }
  }

  /** The first character carries the value's top bits. */
  lemma {:induction false} FirstDigit(value: nat, n: nat)
    requires n > 0 && value < Limit(n)
    ensures Digits(value, n)[0] <= 'b' <==> value < 8 * Limit(n - 1)
  {
    if n > 1 {
      FirstDigit(value / 32, n - 1);
    }
  }

  lemma LimitOfTid()
    ensures 8 * Limit(LEN - 1) == TIMES * CLOCKS
  {
    assert Limit(4) == 0x10_0000;
    assert Limit(8) == 0x100_0000_0000;
    assert Limit(12) == 0x1000_0000_0000_0000;
  }

  lemma PartsOf(s: string) returns (micros: nat, clock: nat)
    requires IsValid(s)
    ensures micros < TIMES && clock < CLOCKS && s == Tid(micros, clock)
  {
    LimitOfTid();
    assert forall c | c in s :: Sortable(c) by {
      forall c | c in s
        ensures Sortable(c)
      {
        SortableIsInAlphabet(c);
      }
    }
    SpelledBound(s);
    DigitsSpelled(s);
    FirstDigit(Spelled(s), LEN);
    micros, clock := Split(Spelled(s));
  }

  lemma Split(value: nat) returns (micros: nat, clock: nat)
    requires value < TIMES * CLOCKS
    ensures micros < TIMES && clock < CLOCKS && Value(micros, clock) == value
  {
    micros, clock := value / CLOCKS, value % CLOCKS;
  }

  /** A string is valid exactly when it is the key of a 53-bit time and a
      10-bit clock identifier. */
  lemma ValidIffMinted(s: string)
    ensures IsValid(s) <==>
            exists micros: nat, clock: nat :: micros < TIMES && clock < CLOCKS && s == Tid(micros, clock)
  {
    if IsValid(s) {
      var micros, clock := PartsOf(s);
    }
    if micros: nat, clock: nat :| micros < TIMES && clock < CLOCKS && s == Tid(micros, clock) {
      TidIsValid(micros, clock);
    }
  }

  lemma TidIsValid(micros: nat, clock: nat)
    ensures IsValid(Tid(micros, clock))
  {
    LimitOfTid();
    DigitsInAlphabet(Value(micros, clock), LEN);
    FirstDigit(Value(micros, clock), LEN);
    forall c | c in Tid(micros, clock)
      ensures c in ALPHABET
    {
      SortableIsInAlphabet(c);
    }
  }

  lemma MaskIsFree(micros: nat, clock: nat)
    ensures Tid(micros, clock % CLOCKS) == Tid(micros, clock)
  {
    assert clock % CLOCKS % CLOCKS == clock % CLOCKS;
  }

  // ---- order ----

  lemma {:induction false} LessSnoc(s: string, t: string, x: char, y: char)
    requires |s| == |t|
    ensures Less(s + [x], t + [y]) <==> Less(s, t) || (s == t && x < y)
  {
    var sx, ty := s + [x], t + [y];
    if s != "" {
      assert sx[1..] == s[1..] + [x] && ty[1..] == t[1..] + [y];
      LessSnoc(s[1..], t[1..], x, y);
      assert s == t <==> s[0] == t[0] && s[1..] == t[1..];
    }
  }

  lemma {:induction false} DigitsOrder(v: nat, w: nat, n: nat)
    requires v < Limit(n) && w < Limit(n)
    ensures Less(Digits(v, n), Digits(w, n)) <==> v < w
    ensures Digits(v, n) == Digits(w, n) <==> v == w
  {
    if n > 0 {
      DigitsOrder(v / 32, w / 32, n - 1);
      var s, t := Digits(v / 32, n - 1), Digits(w / 32, n - 1);
      LessSnoc(s, t, Letter(v % 32), Letter(w % 32));
      SpelledDigits(v, n);
      SpelledDigits(w, n);
    }
  }

  /** Keys sort as their times and then their clock identifiers do, each
      truncated to its bits. */
  lemma OrderEmbedding(micros: nat, clock: nat, micros': nat, clock': nat)
    ensures Less(Tid(micros, clock), Tid(micros', clock')) <==>
            micros % TIMES < micros' % TIMES || (micros % TIMES == micros' % TIMES && clock % CLOCKS < clock' % CLOCKS)
    ensures Tid(micros, clock) == Tid(micros', clock') <==>
            micros % TIMES == micros' % TIMES && clock % CLOCKS == clock' % CLOCKS
  {
    LimitOfTid();
    DigitsOrder(Value(micros, clock), Value(micros', clock'), LEN);
  }

  // ---- minting ----

  function Max(x: nat, y: nat): nat {
    if x < y then y else x
  }

  /** The process's last minted microsecond, updated in one atomic step. */
  class LastMicros {
    var last: nat

    constructor ()
      ensures last == 0
    {
      last := 0;
    }

    /** `reading` is whatever the clock says, `random` whatever the
        generator does. */
    method Now(reading: int, random: nat) returns (tid: string)
      modifies this
      ensures last == Minted(old(last), reading) && tid == Tid(last, random)
      ensures last > old(last) && last >= reading && (last == reading || last == old(last) + 1)
      ensures IsValid(tid)
    {
      var micros: nat := if reading < 0 then 0 else reading;
      last := Max(micros, last + 1);
      TidIsValid(last, random);
      MaskIsFree(last, random);
      tid := FromParts(last, random % CLOCKS);
    }
  }

  function Minted(last: nat, reading: int): nat {
    Max(if reading < 0 then 0 else reading, last + 1)
  }

  datatype Call = Call(reading: int, random: nat)

  /** The time after these calls, in the order their updates took place,
      whichever threads made them. */
  function LastAfter(last: nat, calls: seq<Call>): nat
    decreases |calls|
  {
    if calls == [] then last else LastAfter(Minted(last, calls[0].reading), calls[1..])
  }

  function Keys(last: nat, calls: seq<Call>): (keys: seq<string>)
    ensures |keys| == |calls|
    decreases |calls|
  {
    if calls == [] then []
    else
      var micros := Minted(last, calls[0].reading);
      [Tid(micros, calls[0].random)] + Keys(micros, calls[1..])
  }

  /** The time of the call numbered `j`. */
  function TimeOf(last: nat, calls: seq<Call>, j: nat): nat
    requires j < |calls|
    decreases j
  {
    var micros := Minted(last, calls[0].reading);
    if j == 0 then micros else TimeOf(micros, calls[1..], j - 1)
  }

  lemma {:induction false} KeyAt(last: nat, calls: seq<Call>, j: nat)
    requires j < |calls|
    ensures Keys(last, calls)[j] == Tid(TimeOf(last, calls, j), calls[j].random)
    ensures last < TimeOf(last, calls, j) <= LastAfter(last, calls)
    ensures j > 0 ==> TimeOf(last, calls, 0) < TimeOf(last, calls, j)
    decreases |calls|
  {
    var micros := Minted(last, calls[0].reading);
    if j > 0 {
      KeyAt(micros, calls[1..], j - 1);
    } else if |calls| > 1 {
      KeyAt(micros, calls[1..], 0);
    }
  }

  /** A key's time is what its clock said, or, where that had been minted,
      just past the time before. */
  lemma {:induction false} TimeIsReadingOrNext(last: nat, calls: seq<Call>, j: nat)
    requires j < |calls|
    ensures var before := if j == 0 then last else TimeOf(last, calls, j - 1);
            if calls[j].reading > before then TimeOf(last, calls, j) == calls[j].reading
            else TimeOf(last, calls, j) == before + 1
    decreases j
  {
    if j > 0 {
      TimeIsReadingOrNext(Minted(last, calls[0].reading), calls[1..], j - 1);
    }
  }

  /** A later call's time is later. */
  lemma {:induction false} TimesIncrease(last: nat, calls: seq<Call>, i: nat, j: nat)
    requires i < j < |calls|
    ensures TimeOf(last, calls, i) < TimeOf(last, calls, j)
    decreases i
  {
    if i == 0 {
      KeyAt(last, calls, j);
    } else {
      TimesIncrease(Minted(last, calls[0].reading), calls[1..], i - 1, j - 1);
    }
  }

  /** Of two keys the one minted first sorts first if and only if its time
      is the earlier modulo 53 bits, or is the same and its clock identifier
      the smaller; whatever the clock returns. */
  lemma KeysIncreaseIff(last: nat, calls: seq<Call>, i: nat, j: nat)
    requires i < j < |calls|
    ensures Less(Keys(last, calls)[i], Keys(last, calls)[j]) <==>
            var s, t := TimeOf(last, calls, i) % TIMES, TimeOf(last, calls, j) % TIMES;
            s < t || (s == t && calls[i].random % CLOCKS < calls[j].random % CLOCKS)
  {
    KeyAt(last, calls, i);
    KeyAt(last, calls, j);
    OrderEmbedding(TimeOf(last, calls, i), calls[i].random, TimeOf(last, calls, j), calls[j].random);
  }

  lemma Fits(micros: nat)
    requires micros < TIMES
    ensures micros % TIMES == micros
  {
  }

  /** So keys are minted in strictly increasing order while the times fit
      their 53 bits. */
  lemma KeysIncrease(last: nat, calls: seq<Call>, i: nat, j: nat)
    requires i < j < |calls| && LastAfter(last, calls) < TIMES
    ensures Less(Keys(last, calls)[i], Keys(last, calls)[j])
  {
    KeyAt(last, calls, i);
    KeyAt(last, calls, j);
    TimesIncrease(last, calls, i, j);
    Fits(TimeOf(last, calls, i));
    Fits(TimeOf(last, calls, j));
    KeysIncreaseIff(last, calls, i, j);
  }

  /** The first time past 53 bits sorts before every key of the last one
      that fits. */
  lemma OverflowSortsFirst(clock: nat, clock': nat)
    ensures Less(Tid(TIMES, clock'), Tid(TIMES - 1, clock))
  {
    OrderEmbedding(TIMES, clock', TIMES - 1, clock);
  }
}
