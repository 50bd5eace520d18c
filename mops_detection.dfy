/**
  The detection record of the moving-object pipeline: one observed point on
  the sky (`MopsDetection`). A detection is a mutable object with a default
  and a full constructor, one setter and one getter per field, an observatory
  location shared by every detection, and `fromString`, which overwrites
  eight fields from a whitespace-separated line of text.
*/
module Detections {
  import opened StreamExtraction

  /** A C++ `long int` (64 bits). */
  type Long = v: int | LongMin <= v <= LongMax

  /** A C++ `int` (32 bits). */
  type Int32 = v: int | IntMin <= v <= IntMax

  /** Everything a detection holds, as one value. */
  datatype DetState = DetState(
    id: Long,
    index: Long,
    imageId: Long,
    ssmId: Int32,
    epochMjd: real,
    ra: real,
    dec: real,
    raErr: real,
    decErr: real,
    mag: real,
    snr: real,
    raTopoCorr: real)

  /** The fields `fromString` reads. */
  datatype Field = Id | ImageId | SsmId | Ra | Dec | Mjd | Mag | Snr

  /** The order of the fields on a DiaSource line: id, image id, object id, RA, Dec, epoch, magnitude, SNR. */
  const DiaSourceLayout: seq<Field> := [Id, ImageId, SsmId, Ra, Dec, Mjd, Mag, Snr]

  datatype Value = IntValue(i: int) | RealValue(x: real)

  predicate IsIntegerField(f: Field) {
    f.Id? || f.ImageId? || f.SsmId?
  }

  /** The range of the integer type a field is declared with. */
  function Lower(f: Field): int {
    if f.SsmId? then IntMin else LongMin
  }

  function Upper(f: Field): int {
    if f.SsmId? then IntMax else LongMax
  }

  /** `v` can be stored in field `f`. */
  predicate Fits(f: Field, v: Value) {
    if IsIntegerField(f) then v.IntValue? && Lower(f) <= v.i <= Upper(f) else v.RealValue?
  }

  function Get(st: DetState, f: Field): (v: Value)
    ensures Fits(f, v)
  {
    match f
    case Id => IntValue(st.id)
    case ImageId => IntValue(st.imageId)
    case SsmId => IntValue(st.ssmId)
    case Ra => RealValue(st.ra)
    case Dec => RealValue(st.dec)
    case Mjd => RealValue(st.epochMjd)
    case Mag => RealValue(st.mag)
    case Snr => RealValue(st.snr)
  }

  /** The state with field `f` overwritten by `v`: `f` then reads `v` and nothing else changes. */
  function Set(st: DetState, f: Field, v: Value): (r: DetState)
    requires Fits(f, v)
    ensures Get(r, f) == v
    ensures forall g :: g != f ==> Get(r, g) == Get(st, g)
    ensures r.index == st.index && r.raErr == st.raErr && r.decErr == st.decErr
    ensures r.raTopoCorr == st.raTopoCorr
  {
    match f
    case Id => st.(id := v.i)
    case ImageId => st.(imageId := v.i)
    case SsmId => st.(ssmId := v.i)
    case Ra => st.(ra := v.x)
    case Dec => st.(dec := v.x)
    case Mjd => st.(epochMjd := v.x)
    case Mag => st.(mag := v.x)
    case Snr => st.(snr := v.x)
  }

  /** The outcome of one `stream >> field`: the new state, whether the stream is still good, and where reading goes on. */
  datatype Step = Step(state: DetState, ok: bool, next: nat)

  /**
    One extraction into field `f` from position `pos`. A failed extraction
    leaves the field untouched when only whitespace was left, and otherwise
    stores what the extraction stores (zero, or a bound of the type).
  */
  function ReadStep(st: DetState, f: Field, s: string, pos: nat): (r: Step)
    requires pos <= |s|
    ensures r.ok ==> pos < r.next <= |s|
    ensures r.state == Set(st, f, Get(r.state, f))
  {
    if IsIntegerField(f) then
      match ExtractInteger(s, pos, Lower(f), Upper(f))
      case Extracted(v, next) => Step(Set(st, f, IntValue(v)), true, next)
      case Exhausted => Step(st, false, pos)
      case Malformed(v) => Step(Set(st, f, IntValue(v)), false, pos)
    else
      match ExtractReal(s, pos)
      case Extracted(v, next) => Step(Set(st, f, RealValue(v)), true, next)
      case Exhausted => Step(st, false, pos)
      case Malformed(v) => Step(Set(st, f, RealValue(v)), false, pos)
  }

  /**
    Extraction into the fields `fs` in turn, stopping at the first failure.
    The result is the final state and whether every extraction succeeded.
  */
  function ReadFields(st: DetState, s: string, pos: nat, fs: seq<Field>): (r: (DetState, bool))
    requires pos <= |s|
    ensures r.0.index == st.index && r.0.raErr == st.raErr && r.0.decErr == st.decErr
    ensures r.0.raTopoCorr == st.raTopoCorr
    ensures forall f :: f !in fs ==> Get(r.0, f) == Get(st, f)
    decreases fs
  {
    if fs == [] then (st, true)
    else
      var step := ReadStep(st, fs[0], s, pos);
      if step.ok then ReadFields(step.state, s, step.next, fs[1..]) else (step.state, false)
  }

  /** Reading a field list that starts with `f` is one extraction into `f`, then the rest if it succeeded. */
  lemma ReadFieldsCons(st: DetState, s: string, pos: nat, f: Field, fs: seq<Field>)
    requires pos <= |s|
    ensures var step := ReadStep(st, f, s, pos);
            ReadFields(st, s, pos, [f] + fs)
              == if step.ok then ReadFields(step.state, s, step.next, fs) else (step.state, false)
  {
    assert ([f] + fs)[1..] == fs;
  }

  /** The outcome of reading the fields of `DiaSourceLayout` from the `k`-th on. */
  ghost function Remaining(st: DetState, s: string, pos: nat, k: nat): (DetState, bool)
    requires pos <= |s| && k <= |DiaSourceLayout|
  {
    ReadFields(st, s, pos, DiaSourceLayout[k..])
  }

  // ----- Lines of text and what reading them stores -----

  /**
    A number as it appears on a DiaSource line: an integer, a decimal with a
    point, or a whole number without a point written into a `double` field.
  */
  datatype Token = IntToken(i: int) | DecimalToken(d: Decimal) | WholeToken(w: int)

  function TokenText(t: Token): string {
    match t
    case IntToken(i) => IntegerText(i)
    case DecimalToken(d) => DecimalText(d)
    case WholeToken(w) => IntegerText(w)
  }

  function TokenValue(t: Token): Value {
    match t
    case IntToken(i) => IntValue(i)
    case DecimalToken(d) => RealValue(DecimalValue(d))
    case WholeToken(w) => RealValue(w as real)
  }

  /** An integer token in the range of an integer field, or a decimal or whole number for a `double` field. */
  predicate TokenFits(f: Field, t: Token) {
    match t
    case IntToken(i) => IsIntegerField(f) && Lower(f) <= i <= Upper(f)
    case DecimalToken(d) => !IsIntegerField(f) && ValidDecimal(d)
    case WholeToken(_) => !IsIntegerField(f)
  }

  predicate AllFit(fs: seq<Field>, ts: seq<Token>) {
    |fs| == |ts| && forall k :: 0 <= k < |fs| ==> TokenFits(fs[k], ts[k])
  }

  /** The text of each token. */
  function Texts(ts: seq<Token>): (r: seq<string>)
    ensures |r| == |ts|
  {
    if ts == [] then [] else [TokenText(ts[0])] + Texts(ts[1..])
  }

  /**
    Whitespace to write before each of `n` numbers on a line: any whitespace
    (possibly none) before the first, and at least one whitespace character
    before each later one.
  */
  predicate Separators(seps: seq<string>, n: nat) {
    && |seps| == n
    && (forall k :: 0 <= k < n ==> AllSpace(seps[k]))
    && (forall k :: 1 <= k < n ==> seps[k] != [])
  }

  /** The texts, each preceded by its separator. */
  function Line(texts: seq<string>, seps: seq<string>): string
    requires |seps| == |texts|
  {
    if texts == [] then "" else seps[0] + texts[0] + Line(texts[1..], seps[1..])
  }

  /** The state after storing each token's value in its field, in order. */
  function StoreAll(st: DetState, fs: seq<Field>, ts: seq<Token>): (r: DetState)
    requires AllFit(fs, ts)
    ensures r.index == st.index && r.raErr == st.raErr && r.decErr == st.decErr
    ensures r.raTopoCorr == st.raTopoCorr
    ensures forall f :: f !in fs ==> Get(r, f) == Get(st, f)
    decreases fs
  {
    if fs == [] then st
    else
      assert TokenFits(fs[0], ts[0]);
      StoreAll(Set(st, fs[0], TokenValue(ts[0])), fs[1..], ts[1..])
  }

  /** The position of each field in `DiaSourceLayout`. */
  function Index(f: Field): (k: nat)
    ensures k < |DiaSourceLayout| && DiaSourceLayout[k] == f
  {
    match f
    case Id => 0
    case ImageId => 1
    case SsmId => 2
    case Ra => 3
    case Dec => 4
    case Mjd => 5
    case Mag => 6
    case Snr => 7
  }

  /** No field occurs twice in `fs`. */
  predicate Distinct(fs: seq<Field>) {
    forall i, j :: 0 <= i < j < |fs| ==> fs[i] != fs[j]
  }

  /** When no field repeats, each field of `fs` ends up holding the value of its token. */
  lemma {:induction false} StoreAllStores(st: DetState, fs: seq<Field>, ts: seq<Token>)
    requires AllFit(fs, ts) && Distinct(fs)
    ensures forall k :: 0 <= k < |fs| ==> Get(StoreAll(st, fs, ts), fs[k]) == TokenValue(ts[k])
    decreases fs
  {
    if fs != [] {
      assert TokenFits(fs[0], ts[0]);
      var next := Set(st, fs[0], TokenValue(ts[0]));
      assert AllFit(fs[1..], ts[1..]);
      StoreAllStores(next, fs[1..], ts[1..]);
      assert fs[0] !in fs[1..] by {
        forall j | 0 <= j < |fs[1..]| ensures fs[1..][j] != fs[0] {
          assert fs[1..][j] == fs[j + 1];
        }
      }
      forall k | 0 <= k < |fs| ensures Get(StoreAll(st, fs, ts), fs[k]) == TokenValue(ts[k]) {
        if k > 0 {
          assert fs[k] == fs[1..][k - 1] && ts[k] == ts[1..][k - 1];
        }
      }
    }
  }

  /** The DiaSource layout names each field once. */
  lemma LayoutDistinct()
    ensures Distinct(DiaSourceLayout)
  {
    forall i, j | 0 <= i < j < |DiaSourceLayout| ensures DiaSourceLayout[i] != DiaSourceLayout[j] {
      assert Index(DiaSourceLayout[i]) == i && Index(DiaSourceLayout[j]) == j;
    }
  }

  /** A token written after whitespace is read into its field in one successful step. */
  lemma ReadToken(st: DetState, f: Field, s: string, pos: nat, start: nat, t: Token, end: nat)
    requires TokenFits(f, t) && WrittenAt(s, pos, start, TokenText(t))
    requires end == start + |TokenText(t)|
    ensures ReadStep(st, f, s, pos) == Step(Set(st, f, TokenValue(t)), true, end)
  {
    match t
    case IntToken(i) => IntegerRoundTrip(s, pos, start, i, Lower(f), Upper(f));
    case DecimalToken(d) => DecimalRoundTrip(s, pos, start, d);
    case WholeToken(w) => WholeRoundTrip(s, pos, start, w);
  }

  /** Reading a first token written after whitespace stores it and goes on after it. */
  lemma ReadFirst(st: DetState, s: string, pos: nat, start: nat, fs: seq<Field>, ts: seq<Token>,
                  more: seq<Field>, text: string, end: nat)
    requires AllFit(fs, ts) && ts != [] && text == TokenText(ts[0])
    requires WrittenAt(s, pos, start, text)
    requires end == start + |text|
    ensures ReadFields(st, s, pos, fs + more) == ReadFields(Set(st, fs[0], TokenValue(ts[0])), s, end, fs[1..] + more)
  {
    assert TokenFits(fs[0], ts[0]);
    ReadToken(st, fs[0], s, pos, start, ts[0], end);
    assert fs + more == [fs[0]] + (fs[1..] + more);
    ReadFieldsCons(st, s, pos, fs[0], fs[1..] + more);
  }

  /** A text written right after whitespace and followed by more text that is empty or starts with whitespace. */
  lemma TextLayout(s: string, pos: nat, whole: string, sep: string, text: string, rest: string,
                   start: nat, end: nat, last: nat)
    requires whole == sep + text + rest
    requires Occurs(s, pos, whole) && AllSpace(sep)
    requires start == pos + |sep| && end == start + |text| && last == pos + |whole|
    requires rest == [] || IsSpace(rest[0])
    requires last == |s| || IsSpace(s[last])
    ensures WrittenAt(s, pos, start, text)
    ensures Occurs(s, end, rest)
  {
    OccursParts(s, pos, sep + text, rest);
    OccursParts(s, pos, sep, text);
    forall j | pos <= j < pos + |sep| ensures IsSpace(s[j]) {
      assert s[j] == sep[j - pos];
    }
    if rest != [] {
      assert s[pos + |sep| + |text|] == rest[0];
    }
  }

  /** Where the first text of a line and the rest of the line lie. */
  lemma LineLayout(s: string, pos: nat, texts: seq<string>, seps: seq<string>, end: nat, last: nat)
    requires texts != [] && Separators(seps, |texts|) && Occurs(s, pos, Line(texts, seps))
    requires last == pos + |Line(texts, seps)|
    requires last == |s| || IsSpace(s[last])
    requires end == pos + |seps[0]| + |texts[0]|
    ensures WrittenAt(s, pos, pos + |seps[0]|, texts[0])
    ensures Occurs(s, end, Line(texts[1..], seps[1..]))
    ensures end + |Line(texts[1..], seps[1..])| == last
  {
    var rest := Line(texts[1..], seps[1..]);
    if rest != [] {
      assert rest == seps[1] + texts[1] + Line(texts[2..], seps[2..]);
      assert rest[0] == seps[1][0];
    }
    TextLayout(s, pos, Line(texts, seps), seps[0], texts[0], rest, pos + |seps[0]|, end, last);
  }

  /** The separators after the first are again separators, each non-empty. */
  lemma SeparatorsTail(seps: seq<string>, n: nat)
    requires n > 0 && Separators(seps, n)
    ensures Separators(seps[1..], n - 1)
  {
    forall k | 0 <= k < n - 1 ensures AllSpace(seps[1..][k]) && (k >= 1 ==> seps[1..][k] != []) {
      assert seps[1..][k] == seps[k + 1];
    }
  }

  /** The first token of a line: what reading it does, and what is left to read. */
  lemma LineStep(st: DetState, s: string, pos: nat, fs: seq<Field>, ts: seq<Token>, texts: seq<string>,
                 seps: seq<string>, more: seq<Field>, last: nat, end: nat)
    requires AllFit(fs, ts) && ts != [] && texts == Texts(ts) && Separators(seps, |ts|)
    requires Occurs(s, pos, Line(texts, seps))
    requires last == pos + |Line(texts, seps)|
    requires last == |s| || IsSpace(s[last])
    requires end == pos + |seps[0]| + |texts[0]|
    ensures AllFit(fs[1..], ts[1..]) && texts[1..] == Texts(ts[1..])
    ensures Occurs(s, end, Line(texts[1..], seps[1..])) && last == end + |Line(texts[1..], seps[1..])|
    ensures ReadFields(st, s, pos, fs + more)
              == ReadFields(Set(st, fs[0], TokenValue(ts[0])), s, end, fs[1..] + more)
    ensures StoreAll(st, fs, ts) == StoreAll(Set(st, fs[0], TokenValue(ts[0])), fs[1..], ts[1..])
  {
    LineLayout(s, pos, texts, seps, end, last);
    ReadFirst(st, s, pos, pos + |seps[0]|, fs, ts, more, texts[0], end);
  }

  /**
    Reading a line of tokens stores them one by one and leaves the position
    at `last`, just after the last one.
  */
  lemma {:induction false} ReadLine(st: DetState, s: string, pos: nat, fs: seq<Field>, ts: seq<Token>,
                                    seps: seq<string>, more: seq<Field>, last: nat)
    requires AllFit(fs, ts) && Separators(seps, |ts|) && Occurs(s, pos, Line(Texts(ts), seps))
    requires last == pos + |Line(Texts(ts), seps)|
    requires ts != [] ==> last == |s| || IsSpace(s[last])
    ensures ReadFields(st, s, pos, fs + more) == ReadFields(StoreAll(st, fs, ts), s, last, more)
    decreases ts
  {
    var texts := Texts(ts);
    if ts != [] {
      var end := pos + |seps[0]| + |texts[0]|;
      LineStep(st, s, pos, fs, ts, texts, seps, more, last, end);
      SeparatorsTail(seps, |ts|);
      ReadLine(Set(st, fs[0], TokenValue(ts[0])), s, end, fs[1..], ts[1..], seps[1..], more, last);
    } else {
      assert fs + more == more;
    }
  }

  /**
    A DiaSource line written from eight fitting numbers, separated by
    whitespace and possibly preceded by it, followed by anything that starts
    with whitespace, reads back as those numbers; the index, the
    error bars and the topocentric correction keep their values.
  */
  lemma FromStringRoundTrip(st: DetState, ts: seq<Token>, seps: seq<string>, tail: string)
    requires AllFit(DiaSourceLayout, ts) && Separators(seps, |ts|)
    requires tail == [] || IsSpace(tail[0])
    ensures var r := ReadFields(st, Line(Texts(ts), seps) + tail, 0, DiaSourceLayout);
            && r.1
            && r.0 == StoreAll(st, DiaSourceLayout, ts)
            && (forall k :: 0 <= k < |DiaSourceLayout| ==> Get(r.0, DiaSourceLayout[k]) == TokenValue(ts[k]))
            && r.0.index == st.index && r.0.raErr == st.raErr && r.0.decErr == st.decErr
  {
    LayoutDistinct();
    StoreAllStores(st, DiaSourceLayout, ts);
    var s := Line(Texts(ts), seps) + tail;
    assert Occurs(s, 0, Line(Texts(ts), seps));
    assert DiaSourceLayout + [] == DiaSourceLayout;
    ReadLine(st, s, 0, DiaSourceLayout, ts, seps, [], |Line(Texts(ts), seps)|);
  }

  /** The value a failed extraction stores when the field does not start like a number. */
  function Zero(f: Field): (v: Value)
    ensures Fits(f, v)
  {
    if IsIntegerField(f) then IntValue(0) else RealValue(0.0)
  }

  /** Reading any field where only whitespace is left fails and changes nothing. */
  lemma ReadExhausted(st: DetState, s: string, pos: nat, fs: seq<Field>)
    requires pos <= |s| && fs != []
    requires forall j :: pos <= j < |s| ==> IsSpace(s[j])
    ensures ReadFields(st, s, pos, fs) == (st, false)
  {
    ExhaustedAt(s, pos, Lower(fs[0]), Upper(fs[0]));
    ReadFieldsCons(st, s, pos, fs[0], fs[1..]);
    assert [fs[0]] + fs[1..] == fs;
  }

  /** Reading a field that starts with a character no number starts with fails and zeroes that field. */
  lemma ReadMalformed(st: DetState, s: string, pos: nat, start: nat, fs: seq<Field>)
    requires pos <= start < |s| && fs != []
    requires forall j :: pos <= j < start ==> IsSpace(s[j])
    requires !IsSpace(s[start]) && !IsDigit(s[start])
    requires s[start] != '+' && s[start] != '-' && s[start] != '.'
    ensures ReadFields(st, s, pos, fs) == (Set(st, fs[0], Zero(fs[0])), false)
  {
    MalformedAt(s, pos, start, Lower(fs[0]), Upper(fs[0]));
    ReadFieldsCons(st, s, pos, fs[0], fs[1..]);
    assert [fs[0]] + fs[1..] == fs;
  }

  /** Where the parts of `line + tail` lie. */
  lemma MissingFieldsLayout(s: string, line: string, tail: string, n: nat)
    requires s == line + tail && AllSpace(tail) && n == |line|
    ensures Occurs(s, 0, line)
    ensures forall j :: n <= j < |s| ==> IsSpace(s[j])
  {
    forall j | n <= j < |s| ensures IsSpace(s[j]) {
      assert s[j] == tail[j - n];
    }
  }

  /**
    A line that ends, apart from whitespace, after fewer than eight numbers
    fails: the numbers present have been stored, the rest is untouched.
  */
  lemma MissingFields(st: DetState, ts: seq<Token>, seps: seq<string>, tail: string)
    requires |ts| < |DiaSourceLayout| && AllFit(DiaSourceLayout[..|ts|], ts) && Separators(seps, |ts|)
    requires AllSpace(tail)
    ensures ReadFields(st, Line(Texts(ts), seps) + tail, 0, DiaSourceLayout)
              == (StoreAll(st, DiaSourceLayout[..|ts|], ts), false)
  {
    var s := Line(Texts(ts), seps) + tail;
    var n := |Line(Texts(ts), seps)|;
    var fs := DiaSourceLayout[..|ts|];
    var more := DiaSourceLayout[|ts|..];
    MissingFieldsLayout(s, Line(Texts(ts), seps), tail, n);
    assert fs + more == DiaSourceLayout;
    ReadLine(st, s, 0, fs, ts, seps, more, n);
    ReadExhausted(StoreAll(st, fs, ts), s, n, more);
  }

  /** Where the parts of `line + sep + [c] + rest` lie. */
  lemma BadFieldLayout(s: string, line: string, sep: string, c: char, rest: string, n: nat, start: nat)
    requires s == line + sep + [c] + rest && AllSpace(sep)
    requires n == |line| && start == n + |sep|
    ensures Occurs(s, 0, line) && start < |s| && s[start] == c
    ensures forall j :: n <= j < start ==> IsSpace(s[j])
  {
    forall j | n <= j < start ensures IsSpace(s[j]) {
      assert s[j] == sep[j - n];
    }
  }

  /**
    A line whose next field, after fewer than eight numbers, starts with a
    character no number starts with fails: the numbers before it have been
    stored and that field is set to zero.
  */
  lemma BadField(st: DetState, ts: seq<Token>, seps: seq<string>, sep: string, c: char, rest: string)
    requires |ts| < |DiaSourceLayout| && AllFit(DiaSourceLayout[..|ts|], ts) && Separators(seps, |ts|)
    requires AllSpace(sep) && (ts != [] ==> sep != [])
    requires !IsSpace(c) && !IsDigit(c) && c != '+' && c != '-' && c != '.'
    ensures ReadFields(st, Line(Texts(ts), seps) + sep + [c] + rest, 0, DiaSourceLayout)
              == (Set(StoreAll(st, DiaSourceLayout[..|ts|], ts), DiaSourceLayout[|ts|], Zero(DiaSourceLayout[|ts|])), false)
  {
    var s := Line(Texts(ts), seps) + sep + [c] + rest;
    var n := |Line(Texts(ts), seps)|;
    var fs := DiaSourceLayout[..|ts|];
    var more := DiaSourceLayout[|ts|..];
    BadFieldLayout(s, Line(Texts(ts), seps), sep, c, rest, n, n + |sep|);
    assert fs + more == DiaSourceLayout;
    ReadLine(st, s, 0, fs, ts, seps, more, n);
    ReadMalformed(StoreAll(st, fs, ts), s, n, n + |sep|, more);
  }

  /**
    The location of the observatory, one for the whole program (a pair of
    static members in C++). No detection holds a reference to it: it is
    shared because every caller passes the same `Observatory` object.
  */
  class Observatory {
    var lat: real
    var longitude: real

    /** Static storage starts out zero. */
    constructor ()
      ensures lat == 0.0 && longitude == 0.0
    {
      lat := 0.0;
      longitude := 0.0;
    }
  }

  class MopsDetection {
    var id: Long
    var index: Long
    var imageId: Long
    var ssmId: Int32
    var epochMjd: real
    var ra: real
    var dec: real
    var raErr: real
    var decErr: real
    var mag: real
    var snr: real
    var raTopoCorr: real

    function State(): DetState
      reads this
    {
      DetState(id, index, imageId, ssmId, epochMjd, ra, dec, raErr, decErr, mag, snr, raTopoCorr)
    }

    /** The default detection: RA and Dec hold the impossible angle -380 degrees and the epoch is 0. */
    constructor Default()
      ensures ra == -380.0 && dec == -380.0 && epochMjd == 0.0
    {
      ra := -380.0;
      dec := -380.0;
      epochMjd := 0.0;
    }

    /** Stores every argument; the image id comes from `obsHistId` and the index starts equal to the id. */
    constructor (id: Long, epochMjd: real, ra: real, dec: real, raErr: real, decErr: real,
                 ssmId: Int32, obsHistId: Long, snr: real, mag: real)
      ensures this.id == id && this.index == id && this.imageId == obsHistId && this.ssmId == ssmId
      ensures this.epochMjd == epochMjd && this.ra == ra && this.dec == dec
      ensures this.raErr == raErr && this.decErr == decErr && this.snr == snr && this.mag == mag
    {
      this.id := id;
      this.epochMjd := epochMjd;
      this.ra := ra;
      this.dec := dec;
      this.raErr := raErr;
      this.decErr := decErr;
      this.ssmId := ssmId;
      this.imageId := obsHistId;
      this.snr := snr;
      this.mag := mag;
      this.index := id;
    }

    // Each getter returns its field of `State()`; for the fields of a DiaSource
    // line, that is the value `Get` reads, which `fromString` stores.
    function GetId(): (r: Long) reads this ensures Get(State(), Id) == IntValue(r) { id }
    function GetIndex(): (r: Long) reads this ensures r == State().index { index }
    function GetImageId(): (r: Long) reads this ensures Get(State(), ImageId) == IntValue(r) { imageId }
    function GetMag(): (r: real) reads this ensures Get(State(), Mag) == RealValue(r) { mag }
    function GetSnr(): (r: real) reads this ensures Get(State(), Snr) == RealValue(r) { snr }
    function GetSsmId(): (r: Int32) reads this ensures Get(State(), SsmId) == IntValue(r) { ssmId }
    function GetEpochMjd(): (r: real) reads this ensures Get(State(), Mjd) == RealValue(r) { epochMjd }
    function GetRa(): (r: real) reads this ensures Get(State(), Ra) == RealValue(r) { ra }
    function GetDec(): (r: real) reads this ensures Get(State(), Dec) == RealValue(r) { dec }
    function GetRaErr(): (r: real) reads this ensures r == State().raErr { raErr }
    function GetDecErr(): (r: real) reads this ensures r == State().decErr { decErr }
    function GetRaTopoCorr(): (r: real) reads this ensures r == State().raTopoCorr { raTopoCorr }

    /** Changes the id and nothing else; in particular the index stays. */
    method SetId(newId: Long)
      modifies this
      ensures State() == old(State()).(id := newId)
      ensures GetId() == newId && GetIndex() == old(GetIndex())
    {
      id := newId;
    }

    /** Changes the index and nothing else; in particular the id stays. */
    method SetIndex(newIndex: Long)
      modifies this
      ensures State() == old(State()).(index := newIndex)
      ensures GetIndex() == newIndex && GetId() == old(GetId())
    {
      index := newIndex;
    }

    method SetImageId(newImageId: Long)
      modifies this
      ensures State() == old(State()).(imageId := newImageId)
      ensures GetImageId() == newImageId
    {
      imageId := newImageId;
    }

    method SetMag(newMag: real)
      modifies this
      ensures State() == old(State()).(mag := newMag)
      ensures GetMag() == newMag
    {
      mag := newMag;
    }

    method SetSnr(newSnr: real)
      modifies this
      ensures State() == old(State()).(snr := newSnr)
      ensures GetSnr() == newSnr
    {
      snr := newSnr;
    }

    method SetSsmId(newSsmId: Int32)
      modifies this
      ensures State() == old(State()).(ssmId := newSsmId)
      ensures GetSsmId() == newSsmId
    {
      ssmId := newSsmId;
    }

    method SetEpochMjd(newMjd: real)
      modifies this
      ensures State() == old(State()).(epochMjd := newMjd)
      ensures GetEpochMjd() == newMjd
    {
      epochMjd := newMjd;
    }

    method SetRa(newRa: real)
      modifies this
      ensures State() == old(State()).(ra := newRa)
      ensures GetRa() == newRa
    {
      ra := newRa;
    }

    method SetDec(newDec: real)
      modifies this
      ensures State() == old(State()).(dec := newDec)
      ensures GetDec() == newDec
    {
      dec := newDec;
    }

    method SetRaErr(newRaErr: real)
      modifies this
      ensures State() == old(State()).(raErr := newRaErr)
      ensures GetRaErr() == newRaErr
    {
      raErr := newRaErr;
    }

    method SetDecErr(newDecErr: real)
      modifies this
      ensures State() == old(State()).(decErr := newDecErr)
      ensures GetDecErr() == newDecErr
    {
      decErr := newDecErr;
    }

    /** Moves the observatory every detection shares; no detection's own fields change. */
    static method SetObservatoryLocation(site: Observatory, lat: real, longitude: real)
      modifies site
      ensures site.lat == lat && site.longitude == longitude
    {
      site.lat := lat;
      site.longitude := longitude;
    }

    /** `stream >> field`: stores what the extraction stores in `f`. */
    method Store(f: Field, v: Value)
      requires Fits(f, v)
      modifies this
      ensures State() == Set(old(State()), f, v)
    {
      match f
      case Id => id := v.i;
      case ImageId => imageId := v.i;
      case SsmId => ssmId := v.i;
      case Ra => ra := v.x;
      case Dec => dec := v.x;
      case Mjd => epochMjd := v.x;
      case Mag => mag := v.x;
      case Snr => snr := v.x;
    }

    /** One extraction into field `f`, reading from `pos`. */
    method Extract(f: Field, s: string, pos: nat) returns (ok: bool, next: nat)
      requires pos <= |s|
      modifies this
      ensures Step(State(), ok, next) == ReadStep(old(State()), f, s, pos)
    {
      if IsIntegerField(f) {
        match ExtractInteger(s, pos, Lower(f), Upper(f))
        case Extracted(v, n) =>
          Store(f, IntValue(v));
          ok, next := true, n;
        case Exhausted =>
          ok, next := false, pos;
        case Malformed(v) =>
          Store(f, IntValue(v));
          ok, next := false, pos;
      } else {
        match ExtractReal(s, pos)
        case Extracted(v, n) =>
          Store(f, RealValue(v));
          ok, next := true, n;
        case Exhausted =>
          ok, next := false, pos;
        case Malformed(v) =>
          Store(f, RealValue(v));
          ok, next := false, pos;
      }
    }

    /**
      Reads field `DiaSourceLayout[k]`, the next one of a line being read by
      `FromString`: what is left to read is then the rest of the layout.
    */
    method ExtractField(k: nat, s: string, pos: nat, ghost goal: (DetState, bool)) returns (ok: bool, next: nat)
      requires k < |DiaSourceLayout| && pos <= |s|
      requires goal == Remaining(State(), s, pos, k)
      modifies this
      ensures ok ==> next <= |s| && goal == Remaining(State(), s, next, k + 1)
      ensures !ok ==> goal == (State(), false)
    {
      ReadFieldsCons(State(), s, pos, DiaSourceLayout[k], DiaSourceLayout[k + 1..]);
      assert [DiaSourceLayout[k]] + DiaSourceLayout[k + 1..] == DiaSourceLayout[k..];
      ok, next := Extract(DiaSourceLayout[k], s, pos);
    }

    /**
      Reads a DiaSource line into the detection. `ok` is false where the C++
      raises `BadParameterException`; the fields read before the failure
      keep their new values.
    */
    method FromString(s: string) returns (ok: bool)
      modifies this
      ensures (State(), ok) == ReadFields(old(State()), s, 0, DiaSourceLayout)
    {
      var pos: nat := 0;
      ghost var goal := ReadFields(State(), s, 0, DiaSourceLayout);
      assert DiaSourceLayout[0..] == DiaSourceLayout;
      ok := true;
      // The eight extractions, one per entry of the layout, in order.
      var k: nat := 0;
      while k < |DiaSourceLayout|
        invariant k <= |DiaSourceLayout| && pos <= |s|
        invariant goal == Remaining(State(), s, pos, k)
      {
        ok, pos := ExtractField(k, s, pos, goal);
        if !ok {
          return;
        }
        k := k + 1;
      }
      assert Remaining(State(), s, pos, k) == (State(), true);
    }
  }
}
