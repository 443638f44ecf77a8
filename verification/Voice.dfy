/** The spoken amount: how a Rupiah amount becomes a list of clips and an MQTT payload, and a
    decoder for Indonesian number words that gives the amount back. */
module Voice {
  import opened Common

  const MAX_RUPIAH := 999_999_999_999

  datatype Clip =
    | AwalQris | AkhirBerhasil
    | Satu | Dua | Tiga | Empat | Lima | Enam | Tujuh | Delapan | Sembilan
    | Sepuluh | Sebelas | Seratus | Seribu
    | Belas | Puluh | Ratus | Ribu | Juta | Miliar

  /** The audio file's base name on the device. */
  function Name(c: Clip): string {
    match c
    case AwalQris => "awal-qris"
    case AkhirBerhasil => "akhir-berhasil"
    case Satu => "satu"
    case Dua => "dua"
    case Tiga => "tiga"
    case Empat => "empat"
    case Lima => "lima"
    case Enam => "enam"
    case Tujuh => "tujuh"
    case Delapan => "delapan"
    case Sembilan => "sembilan"
    case Sepuluh => "sepuluh"
    case Sebelas => "sebelas"
    case Seratus => "seratus"
    case Seribu => "seribu"
    case Belas => "belas"
    case Puluh => "puluh"
    case Ratus => "ratus"
    case Ribu => "ribu"
    case Juta => "juta"
    case Miliar => "miliar"
  }

  /** digitClips; there is no clip for zero. */
  function DigitClip(d: int): Clip
    requires 1 <= d <= 9
  {
    match d
    case 1 => Satu
    case 2 => Dua
    case 3 => Tiga
    case 4 => Empat
    case 5 => Lima
    case 6 => Enam
    case 7 => Tujuh
    case 8 => Delapan
    case _ => Sembilan
  }

  datatype Scale = Scale(value: int, mult: Clip, solo: Option<Clip>)

  const MILIAR := Scale(1_000_000_000, Miliar, None)
  const JUTA := Scale(1_000_000, Juta, None)
  const RIBU := Scale(1_000, Ribu, Some(Seribu))

  function BelowHundred(n: int): seq<Clip>
    requires 1 <= n < 100
  {
    if n < 10 then [DigitClip(n)]
    else if n == 10 then [Sepuluh]
    else if n == 11 then [Sebelas]
    else if n < 20 then [DigitClip(n - 10), Belas]
    else [DigitClip(n / 10), Puluh] + (if n % 10 > 0 then [DigitClip(n % 10)] else [])
  }

  function Hundreds(n: int): seq<Clip>
    requires 100 <= n < 1000
  {
    (if n / 100 == 1 then [Seratus] else [DigitClip(n / 100), Ratus])
    + (if n % 100 > 0 then BelowHundred(n % 100) else [])
  }

  function ScaleOf(n: int): Scale
    requires n >= 1000
  {
    if n >= MILIAR.value then MILIAR else if n >= JUTA.value then JUTA else RIBU
  }

  /** Spells a positive number level by level; the level's count is spelt the same way. */
  function NumberClips(n: int): seq<Clip>
    requires 1 <= n <= MAX_RUPIAH
    decreases n
  {
    if n < 100 then BelowHundred(n)
    else if n < 1000 then Hundreds(n)
    else
      var s := ScaleOf(n);
      var part, rest := n / s.value, n % s.value;
      (if part == 1 && s.solo.Some? then [s.solo.value] else NumberClips(part) + [s.mult])
      + (if rest > 0 then NumberClips(rest) else [])
  }

  function Compose(rupiah: int): Option<seq<Clip>> {
    if rupiah <= 0 || rupiah > MAX_RUPIAH then None
    else Some([AwalQris] + NumberClips(rupiah) + [AkhirBerhasil])
  }

  // ----- the decoder ----------------------------------------------------------------------

  /** A listener's running sums: finished levels, the level being heard, and a digit on hold. */
  datatype Heard = Heard(total: int, level: int, digit: int)

  const SILENCE := Heard(0, 0, 0)

  /** The digit a word says; 0 for any other word. */
  function DigitOf(word: string): int {
    if word == "satu" then 1
    else if word == "dua" then 2
    else if word == "tiga" then 3
    else if word == "empat" then 4
    else if word == "lima" then 5
    else if word == "enam" then 6
    else if word == "tujuh" then 7
    else if word == "delapan" then 8
    else if word == "sembilan" then 9
    else 0
  }

  /** One word: a digit waits, belas/puluh/ratus weigh it, ribu/juta/miliar close the level. There is no "satu
      belas", "satu puluh", "satu ratus" or "satu ribu": such words add nothing. */
  function HearWord(h: Heard, word: string): Heard {
    if word == "sepuluh" then Heard(h.total, h.level + 10, h.digit)
    else if word == "sebelas" then Heard(h.total, h.level + 11, h.digit)
    else if word == "seratus" then Heard(h.total, h.level + 100, h.digit)
    else if word == "seribu" then Heard(h.total + 1000, h.level, h.digit)
    else if word == "belas" then Heard(h.total, h.level + (if h.digit >= 2 then 10 + h.digit else 0), 0)
    else if word == "puluh" then Heard(h.total, h.level + (if h.digit >= 2 then 10 * h.digit else 0), 0)
    else if word == "ratus" then Heard(h.total, h.level + (if h.digit >= 2 then 100 * h.digit else 0), 0)
    else if word == "ribu" then
      Heard(h.total + (if h.level + h.digit >= 2 then 1_000 * (h.level + h.digit) else 0), 0, 0)
    else if word == "juta" then Heard(h.total + 1_000_000 * (h.level + h.digit), 0, 0)
    else if word == "miliar" then Heard(h.total + 1_000_000_000 * (h.level + h.digit), 0, 0)
    else Heard(h.total, h.level, DigitOf(word))
  }

  function ListenTo(h: Heard, words: seq<string>): Heard
    decreases |words|
  {
    if words == [] then h else ListenTo(HearWord(h, words[0]), words[1..])
  }

  /** The amount in a sequence of words, which is announced by "awal-qris" and ended by "akhir-berhasil". */
  function Understand(words: seq<string>): Option<int> {
    if |words| < 3 || words[0] != "awal-qris" || words[|words| - 1] != "akhir-berhasil" then None
    else
      var h := ListenTo(SILENCE, words[1..|words| - 1]);
      Some(h.total + h.level + h.digit)
  }

  function Names(clips: seq<Clip>): (names: seq<string>)
    ensures |names| == |clips| && forall i :: 0 <= i < |clips| ==> names[i] == Name(clips[i])
  {
    seq(|clips|, i requires 0 <= i < |clips| => Name(clips[i]))
  }

  /** What is heard of a clip is its name. */
  function Hear(h: Heard, c: Clip): Heard { HearWord(h, Name(c)) }

  lemma FixedAreWords(h: Heard, c: Clip)
    ensures c == Sepuluh ==> Hear(h, c) == Heard(h.total, h.level + 10, h.digit)
    ensures c == Sebelas ==> Hear(h, c) == Heard(h.total, h.level + 11, h.digit)
    ensures c == Seratus ==> Hear(h, c) == Heard(h.total, h.level + 100, h.digit)
    ensures c == Seribu ==> Hear(h, c) == Heard(h.total + 1000, h.level, h.digit)
  {
  }

  lemma WeightsAreWords(h: Heard, c: Clip)
    ensures c == Belas && h.digit >= 2 ==> Hear(h, c) == Heard(h.total, h.level + 10 + h.digit, 0)
    ensures c == Puluh && h.digit >= 2 ==> Hear(h, c) == Heard(h.total, h.level + 10 * h.digit, 0)
    ensures c == Ratus && h.digit >= 2 ==> Hear(h, c) == Heard(h.total, h.level + 100 * h.digit, 0)
  {
  }

  lemma LevelsAreWords(h: Heard, c: Clip)
    ensures c == Ribu && h.level + h.digit >= 2 ==> Hear(h, c) == Heard(h.total + 1_000 * (h.level + h.digit), 0, 0)
    ensures c == Juta ==> Hear(h, c) == Heard(h.total + 1_000_000 * (h.level + h.digit), 0, 0)
    ensures c == Miliar ==> Hear(h, c) == Heard(h.total + 1_000_000_000 * (h.level + h.digit), 0, 0)
  {
  }

  /** The clips' names are the words that the listener knows. */
  lemma ClipsAreWords(h: Heard, c: Clip)
    ensures c == Sepuluh ==> Hear(h, c) == Heard(h.total, h.level + 10, h.digit)
    ensures c == Sebelas ==> Hear(h, c) == Heard(h.total, h.level + 11, h.digit)
    ensures c == Seratus ==> Hear(h, c) == Heard(h.total, h.level + 100, h.digit)
    ensures c == Seribu ==> Hear(h, c) == Heard(h.total + 1000, h.level, h.digit)
    ensures c == Belas && h.digit >= 2 ==> Hear(h, c) == Heard(h.total, h.level + 10 + h.digit, 0)
    ensures c == Puluh && h.digit >= 2 ==> Hear(h, c) == Heard(h.total, h.level + 10 * h.digit, 0)
    ensures c == Ratus && h.digit >= 2 ==> Hear(h, c) == Heard(h.total, h.level + 100 * h.digit, 0)
    ensures c == Ribu && h.level + h.digit >= 2 ==> Hear(h, c) == Heard(h.total + 1_000 * (h.level + h.digit), 0, 0)
    ensures c == Juta ==> Hear(h, c) == Heard(h.total + 1_000_000 * (h.level + h.digit), 0, 0)
    ensures c == Miliar ==> Hear(h, c) == Heard(h.total + 1_000_000_000 * (h.level + h.digit), 0, 0)
  {
    hide Hear;
    FixedAreWords(h, c);
    WeightsAreWords(h, c);
    LevelsAreWords(h, c);
  }

  lemma DigitIsHeard(h: Heard, d: int)
    requires 1 <= d <= 9
    ensures Hear(h, DigitClip(d)) == Heard(h.total, h.level, d)
  {
  }

  function Listen(h: Heard, clips: seq<Clip>): Heard
    decreases |clips|
  {
    if clips == [] then h else Listen(Hear(h, clips[0]), clips[1..])
  }

  lemma {:induction false} ListenToNames(h: Heard, clips: seq<Clip>)
    ensures ListenTo(h, Names(clips)) == Listen(h, clips)
    decreases |clips|
  {
    if clips != [] {
      assert Names(clips)[1..] == Names(clips[1..]);
      ListenToNames(Hear(h, clips[0]), clips[1..]);
    }
  }

  lemma {:induction false} ListenConcat(h: Heard, a: seq<Clip>, b: seq<Clip>)
    ensures Listen(h, a + b) == Listen(Listen(h, a), b)
    decreases |a|
  {
    if a == [] {
      assert a + b == b;
    } else {
      assert (a + b)[1..] == a[1..] + b;
      ListenConcat(Hear(h, a[0]), a[1..], b);
    }
  }

  lemma ListenOne(h: Heard, c: Clip)
    ensures Listen(h, [c]) == Hear(h, c)
  {
    assert Listen(Hear(h, c), [c][1..]) == Hear(h, c);
  }

  lemma ListenTwo(h: Heard, c: Clip, d: Clip)
    ensures Listen(h, [c, d]) == Hear(Hear(h, c), d)
  {
    ListenOne(Hear(h, c), d);
    assert [c, d][1..] == [d];
  }

  /** Below a hundred, the words add the number to the level. */
  lemma HearBelowHundred(total: int, level: int, n: int)
    requires 1 <= n < 100
    ensures var h := Listen(Heard(total, level, 0), BelowHundred(n)); h.total == total && h.level + h.digit == level + n
  {
    hide Listen, Hear, DigitClip;
    var h := Heard(total, level, 0);
    if n < 12 {
      ListenOne(h, BelowHundred(n)[0]);
      if n < 10 { DigitIsHeard(h, n); } else { ClipsAreWords(h, BelowHundred(n)[0]); }
    } else if n < 20 {
      ListenTwo(h, DigitClip(n - 10), Belas);
      DigitIsHeard(h, n - 10);
      ClipsAreWords(Heard(total, level, n - 10), Belas);
    } else {
      var tens := [DigitClip(n / 10), Puluh];
      ListenTwo(h, DigitClip(n / 10), Puluh);
      DigitIsHeard(h, n / 10);
      ClipsAreWords(Heard(total, level, n / 10), Puluh);
      if n % 10 == 0 {
        assert BelowHundred(n) == tens;
      } else {
        ListenConcat(h, tens, [DigitClip(n % 10)]);
        ListenOne(Listen(h, tens), DigitClip(n % 10));
        DigitIsHeard(Listen(h, tens), n % 10);
      }
    }
  }

  lemma HearHundreds(total: int, n: int)
    requires 100 <= n < 1000
    ensures var h := Listen(Heard(total, 0, 0), Hundreds(n)); h.total == total && h.level + h.digit == n
  {
    hide Listen, Hear, DigitClip, BelowHundred;
    var h := Heard(total, 0, 0);
    var head := if n / 100 == 1 then [Seratus] else [DigitClip(n / 100), Ratus];
    if n / 100 == 1 {
      ListenOne(h, Seratus);
      ClipsAreWords(h, Seratus);
    } else {
      ListenTwo(h, DigitClip(n / 100), Ratus);
      DigitIsHeard(h, n / 100);
      ClipsAreWords(Heard(total, 0, n / 100), Ratus);
    }
    if n % 100 == 0 {
      assert Hundreds(n) == head;
    } else {
      ListenConcat(h, head, BelowHundred(n % 100));
      HearBelowHundred(total, n - n % 100, n % 100);
    }
  }

  /** A level's count is 1..999, and count and remainder make up the number. */
  lemma LevelParts(n: int)
    requires 1000 <= n <= MAX_RUPIAH
    ensures var s := ScaleOf(n);
            1 <= n / s.value < 1000 && 0 <= n % s.value < s.value && n == n / s.value * s.value + n % s.value
  {
  }

  /** A level closes with its multiplier, whatever clip it ended on. */
  lemma HearMultiplier(h: Heard, n: int)
    requires n >= 1000 && h.level + h.digit >= if ScaleOf(n).solo.Some? then 2 else 1
    ensures Hear(h, ScaleOf(n).mult) == Heard(h.total + (h.level + h.digit) * ScaleOf(n).value, 0, 0)
  {
    hide Hear;
    ClipsAreWords(h, ScaleOf(n).mult);
  }

  /** Heard from a fresh level, the words of n add exactly n; below a thousand they finish no level. */
  lemma {:induction false} HearNumber(total: int, n: int)
    requires 1 <= n <= MAX_RUPIAH
    ensures var h := Listen(Heard(total, 0, 0), NumberClips(n));
            h.total + h.level + h.digit == total + n && (n < 1000 ==> h.total == total)
    decreases n
  {
    hide Listen, Hear, BelowHundred, Hundreds;
    if n < 100 {
      HearBelowHundred(total, 0, n);
    } else if n < 1000 {
      HearHundreds(total, n);
    } else {
      LevelParts(n);
      var s := ScaleOf(n);
      var part, rest := n / s.value, n % s.value;
      var h := Heard(total, 0, 0);
      var head := if part == 1 && s.solo.Some? then [s.solo.value] else NumberClips(part) + [s.mult];
      assert Listen(h, head) == Heard(total + part * s.value, 0, 0) by {
        if part == 1 && s.solo.Some? {
          ListenOne(h, Seribu);
          ClipsAreWords(h, Seribu);
        } else {
          HearNumber(total, part);
          ListenConcat(h, NumberClips(part), [s.mult]);
          ListenOne(Listen(h, NumberClips(part)), s.mult);
          HearMultiplier(Listen(h, NumberClips(part)), n);
        }
      }
      if rest == 0 {
        assert NumberClips(n) == head;
      } else {
        assert NumberClips(n) == head + NumberClips(rest);
        ListenConcat(h, head, NumberClips(rest));
        HearNumber(total + part * s.value, rest);
      }
    }
  }

  /** Spoken amounts are unambiguous: the names of the clips, heard as words, say the amount. */
  lemma UnderstandComposed(n: int)
    requires 1 <= n <= MAX_RUPIAH
    ensures Compose(n).Some? && Understand(Names(Compose(n).value)) == Some(n)
  {
    hide ListenTo, Listen, NumberClips;
    var clips := [AwalQris] + NumberClips(n) + [AkhirBerhasil];
    HearNumber(0, n);
    ListenToNames(SILENCE, NumberClips(n));
    var words := Names(clips);
    assert words[1..|words| - 1] == Names(NumberClips(n));
    SomethingIsSaid(n);
  }

  lemma SomethingIsSaid(n: int)
    requires 1 <= n <= MAX_RUPIAH
    ensures |NumberClips(n)| > 0
  {
  }

  /** Hence no two amounts sound alike, and exactly 1..999,999,999,999 can be spoken. */
  lemma ComposeInjective(a: int, b: int)
    requires Compose(a).Some? && Compose(b).Some? && Names(Compose(a).value) == Names(Compose(b).value)
    ensures a == b && 1 <= a <= MAX_RUPIAH
  {
    UnderstandComposed(a);
    UnderstandComposed(b);
  }
}
