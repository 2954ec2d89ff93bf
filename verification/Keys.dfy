/**
 Key generation on the device (src/keys.c), the hexadecimal form in which a key travels
 through the index page, and its recovery by the server (work/http/contextserver.cpp).
 */
module Keys {
  import opened Words
  import opened Feistel

  datatype KeyPair = KeyPair(server: Key, loader: Key)

  const SECRET := KeyPair([0x548BE7C9, 0x6A192FFF, 0x4F60B9AA, 0x25B2F8A2],
                          [0x7090F460, 0x142A17AB, 0x5CFA0569, 0x37F47998])

  /** Devices that have been paid for. */
  const PAID: seq<Key> := [[0x001e0027, 0x33314718, 0x35373532, 0x00000400],
                           [0x001e0027, 0x33314718, 0x35373532, 0x00000000]]

  const WIDTH := 8

  function XorKey(a: Key, u: Key): Key
  {
    [Xor(a[0], u[0]), Xor(a[1], u[1]), Xor(a[2], u[2]), Xor(a[3], u[3])]
  }

  lemma XorKeyUndo(a: Key, u: Key)
    ensures XorKey(XorKey(a, u), a) == u
  {
    forall i | 0 <= i < 4
      ensures Xor(Xor(a[i], u[i]), a[i]) == u[i]
    {
      XorCommutes(a[i], u[i]);
      XorUndo(u[i], a[i]);
    }
  }

  lemma XorCommutes(a: Word, b: Word)
    ensures Xor(a, b) == Xor(b, a)
  {
    XorNatCommutes(a, b);
  }

  lemma {:induction false} XorNatCommutes(a: nat, b: nat)
    ensures XorNat(a, b) == XorNat(b, a)
  {
    if a != 0 || b != 0 {
      XorNatCommutes(a / 2, b / 2);
    }
  }

  /** xor_key: the loop that fills an output key. */
  method XorInto(inkey: Key, outkey: array<Word>, u: Key)
    requires outkey.Length == 4
    modifies outkey
    ensures outkey[..] == XorKey(inkey, u)
  {
    for n := 0 to 4
      invariant forall i :: 0 <= i < n ==> outkey[i] == XorKey(inkey, u)[i]
    {
      outkey[n] := Xor(inkey[n], u[n]);
    }
  }

  /** generate_keys, for the identifier u read from the chip. */
  function Generated(u: Key): KeyPair
  {
    KeyPair(XorKey(SECRET.server, u), XorKey(SECRET.loader, u))
  }

  // ---------------------------------------------------------------- hexadecimal

  function Digit(d: nat): Byte
    requires d < 16
  {
    if d < 10 then 48 + d else 55 + d
  }

  function DigitValue(c: Byte): int
  {
    if 48 <= c < 58 then c - 48
    else if 65 <= c < 71 then c - 55
    else if 97 <= c < 103 then c - 87
    else -1
  }

  /** The w low hexadecimal digits of n, most significant first. */
  function Hex(n: nat, w: nat): (s: seq<Byte>)
    ensures |s| == w
  {
    if w == 0 then [] else Hex(n / 16, w - 1) + [Digit(n % 16)]
  }

  /** toHex: writes the digits from the last one backwards. */
  method ToHex(p: array<Byte>, at: nat, n: Word) returns (w: nat)
    requires at + WIDTH <= p.Length
    modifies p
    ensures w == WIDTH
    ensures p[..] == old(p[..at]) + Hex(n, WIDTH) + old(p[at + WIDTH..])
  {
    var m, q := n, at + WIDTH;
    ghost var tail: seq<Byte> := [];
    assert Hex(n, WIDTH) + tail == Hex(n, WIDTH);
    for i := 0 to WIDTH
      invariant q == at + WIDTH - i && |tail| == i
      invariant Hex(n, WIDTH) == Hex(m, WIDTH - i) + tail
      invariant p[..] == old(p[..q]) + tail + old(p[at + WIDTH..])
    {
      assert Hex(m, WIDTH - i) == Hex(m / 16, WIDTH - i - 1) + [Digit(m % 16)];
      q := q - 1;
      p[q] := Digit(m % 16);
      tail := [Digit(m % 16)] + tail;
      m := m / 16;
    }
    w := WIDTH;
  }

  datatype Scan = Scan(digits: nat, value: nat, rest: seq<Byte>)

  /** One %08X conversion: at most w digits, stopping early at the first other character. */
  function ScanHex(s: seq<Byte>, w: nat, value: nat): Scan
  {
    if w == 0 || s == [] || DigitValue(s[0]) < 0 then Scan(0, value, s)
    else
      var r := ScanHex(s[1..], w - 1, 16 * value + DigitValue(s[0]));
      r.(digits := r.digits + 1)
  }

  function Pow16(n: nat): nat
  {
    if n == 0 then 1 else 16 * Pow16(n - 1)
  }

  /** Scanning digits in two portions. */
  lemma {:induction false} ScanSplit(s: seq<Byte>, t: seq<Byte>, w: nat, v: nat)
    requires |s| <= w && forall i :: 0 <= i < |s| ==> 0 <= DigitValue(s[i])
    ensures var a := ScanHex(s, |s|, v);
      && a.digits == |s| && a.rest == []
      && ScanHex(s + t, w, v).value == ScanHex(t, w - |s|, a.value).value
      && ScanHex(s + t, w, v).rest == ScanHex(t, w - |s|, a.value).rest
      && ScanHex(s + t, w, v).digits == |s| + ScanHex(t, w - |s|, a.value).digits
  {
    if s == [] {
      assert s + t == t;
    } else {
      assert (s + t)[1..] == s[1..] + t;
      ScanSplit(s[1..], t, w - 1, 16 * v + DigitValue(s[0]));
    }
  }

  lemma {:induction false} HexDigits(n: nat, w: nat)
    ensures forall i :: 0 <= i < w ==> 0 <= DigitValue(Hex(n, w)[i])
  {
    if w > 0 {
      HexDigits(n / 16, w - 1);
    }
  }

  /** What toHex prints, sscanf reads back. */
  lemma {:induction false} HexRoundTrip(n: nat, w: nat, t: seq<Byte>)
    requires n < Pow16(w)
    ensures ScanHex(Hex(n, w) + t, w, 0) == Scan(w, n, t)
  {
    HexDigits(n, w);
    ScanSplit(Hex(n, w), t, w, 0);
    HexValue(n, w);
  }

  lemma {:induction false} HexValue(n: nat, w: nat)
    requires n < Pow16(w)
    ensures ScanHex(Hex(n, w), w, 0).value == n
  {
    if w > 0 {
      var h, d := Hex(n / 16, w - 1), [Digit(n % 16)];
      HexDigits(n / 16, w - 1);
      HexValue(n / 16, w - 1);
      ScanSplit(h, d, w, 0);
    }
  }

  // ----------------------------------------------------------- through the web page

  function HexWords(k: seq<Word>): (s: seq<Byte>)
    ensures |s| == WIDTH * |k|
  {
    if k == [] then [] else Hex(k[0], WIDTH) + HexWords(k[1..])
  }

  /** What replaces the `%` of the index page. */
  function HexKey(k: Key): (s: seq<Byte>)
    ensures |s| == 4 * WIDTH
  {
    HexWords(k)
  }

  datatype Scanned = NoScan | Scanned(words: seq<Word>, rest: seq<Byte>)

  /** n conversions in a row; each must read at least one digit. */
  function ScanWords(s: seq<Byte>, n: nat): (r: Scanned)
    ensures r.Scanned? ==> |r.words| == n
    decreases n
  {
    if n == 0 then Scanned([], s)
    else
      var a := ScanHex(s, WIDTH, 0);
      if a.digits == 0 then NoScan
      else
        match ScanWords(a.rest, n - 1)
        case NoScan => NoScan
        case Scanned(words, rest) => Scanned([a.value % M32] + words, rest)
  }

  lemma ScanWordsCons(s: seq<Byte>, n: nat, v: Word, t: seq<Byte>, vs: seq<Word>, rest: seq<Byte>)
    requires ScanHex(s, WIDTH, 0) == Scan(WIDTH, v, t) && ScanWords(t, n) == Scanned(vs, rest)
    ensures ScanWords(s, n + 1) == Scanned([v] + vs, rest)
  {
  }

  lemma {:induction false} ScanHexWords(k: seq<Word>, t: seq<Byte>)
    ensures ScanWords(HexWords(k) + t, |k|) == Scanned(k, t)
  {
    if k == [] {
      assert HexWords(k) + t == t;
    } else {
      var u := HexWords(k[1..]) + t;
      assert HexWords(k) + t == Hex(k[0], WIDTH) + u;
      HexRoundTrip(k[0], WIDTH, u);
      ScanHexWords(k[1..], t);
      ScanWordsCons(HexWords(k) + t, |k| - 1, k[0], u, k[1..], t);
      assert k == [k[0]] + k[1..];
    }
  }

  datatype Request = NoMatch | Request(key: Key, file: seq<Byte>)

  const SLASH: Byte := 47

  /** The sscanf of sendImage: a slash, four words, a slash and the file name. */
  function ParseRequest(url: seq<Byte>): Request
  {
    if url == [] || url[0] != SLASH then NoMatch
    else
      match ScanWords(url[1..], 4)
      case NoScan => NoMatch
      case Scanned(words, rest) =>
        if |rest| < 2 || rest[0] != SLASH then NoMatch else Request(words, rest[1..])
  }

  /** The file whose request makes the server take over a device's key. */
  const FIRMWARE: seq<Byte> := [70, 73, 82, 77, 87, 65, 82, 69, 46, 66, 73, 78]

  /** What the form of the selection page asks for: a choice in decimal between these. */
  const FORM: seq<Byte> := FIRMWARE + [63, 118, 111, 108, 98, 121, 61]
  const SUBMIT: seq<Byte> := [38, 111, 107, 61, 79, 100, 101, 115, 108, 97, 116]

  predicate IsDecimal(c: Byte) { 48 <= c < 58 }

  function Decimal(n: nat): seq<Byte>
  {
    if n < 10 then [48 + n] else Decimal(n / 10) + [48 + n % 10]
  }

  /** The value of the decimal digits that s starts with, after digits worth v. */
  function ScanDecimal(s: seq<Byte>, v: nat): nat
  {
    if s == [] || !IsDecimal(s[0]) then v else ScanDecimal(s[1..], 10 * v + (s[0] - 48))
  }

  datatype Choice = NoChoice | Choice(n: nat)

  /** The second sscanf of sendImage. */
  function ParseChoice(file: seq<Byte>): Choice
  {
    if |file| <= |FORM| || file[..|FORM|] != FORM || !IsDecimal(file[|FORM|]) then NoChoice
    else Choice(ScanDecimal(file[|FORM|..], 0))
  }

  lemma {:induction false} DecimalReadsBack(n: nat, t: seq<Byte>)
    ensures |Decimal(n)| > 0 && IsDecimal(Decimal(n)[0])
    ensures ScanDecimal(Decimal(n) + t, 0) == ScanDecimal(t, n)
  {
    var d: seq<Byte> := [48 + n % 10];
    assert (d + t)[1..] == t;
    if n >= 10 {
      DecimalReadsBack(n / 10, d + t);
      assert Decimal(n) + t == Decimal(n / 10) + (d + t);
    }
  }

  /** The file that the form of the selection page asks for. */
  function FormFile(n: nat): seq<Byte> { FORM + Decimal(n) + SUBMIT }

  lemma ChoiceRoundTrip(n: nat)
    ensures ParseChoice(FormFile(n)) == Choice(n)
  {
    var rest := Decimal(n) + SUBMIT;
    DecimalReadsBack(n, SUBMIT);
    assert FormFile(n) == FORM + rest;
    assert FormFile(n)[..|FORM|] == FORM && FormFile(n)[|FORM|..] == rest && FormFile(n)[|FORM|] == rest[0];
  }

  /** What sendImage serves: nothing of its own, the page for unpaid devices, the selection page, or the firmware
      of that number. */
  datatype Reply = NotServed | NotPaid | Selection | Firmware(choice: nat)

  function ReplyTo(url: seq<Byte>): Reply
  {
    match ParseRequest(url)
    case NoMatch => NotServed
    case Request(key, file) =>
      if file == FIRMWARE then
        if XorKey(key, SECRET.server) in PAID then Selection else NotPaid
      else
        match ParseChoice(file)
        case NoChoice => NotServed
        case Choice(n) => Firmware(n)
  }

  /** The loader key after a request: on the firmware page the identifier is recovered from the
      key in the URL, and only if it is paid for does the loader key change. */
  function LoaderAfter(loader: Key, url: seq<Byte>): Key
  {
    match ParseRequest(url)
    case NoMatch => loader
    case Request(key, file) =>
      var uuid := XorKey(key, SECRET.server);
      if file == FIRMWARE && uuid in PAID then XorKey(uuid, SECRET.loader) else loader
  }

  /** The URL that the device's index page links to. */
  function DeviceUrl(u: Key, file: seq<Byte>): seq<Byte>
  {
    [SLASH] + HexKey(Generated(u).server) + [SLASH] + file
  }

  lemma UrlRoundTrip(k: Key, file: seq<Byte>)
    requires file != []
    ensures ParseRequest([SLASH] + HexKey(k) + [SLASH] + file) == Request(k, file)
  {
    var t := [SLASH] + file;
    var url := [SLASH] + HexKey(k) + [SLASH] + file;
    assert url[1..] == HexKey(k) + t;
    ScanHexWords(k, t);
    assert t[1..] == file;
  }

  /** The server ends up with the key of exactly the device whose page was used, if and only if
      that device is paid for (or the server happened to have that key already). */
  lemma ServerRecoversKey(u: Key, loader: Key)
    ensures LoaderAfter(loader, DeviceUrl(u, FIRMWARE)) ==
      if u in PAID then Generated(u).loader else loader
  {
    UrlRoundTrip(Generated(u).server, FIRMWARE);
    XorKeyUndo(SECRET.server, u);
    XorKeyCommutes(u, SECRET.loader);
  }

  /** The two requests of a device: its page leads to the selection exactly if it is paid for, and then every
      choice there to that firmware, to be coded with the device's own loader key. */
  lemma DeviceIsServed(u: Key, loader: Key, n: nat)
    ensures ReplyTo(DeviceUrl(u, FIRMWARE)) == if u in PAID then Selection else NotPaid
    ensures ReplyTo(DeviceUrl(u, FormFile(n))) == Firmware(n)
    ensures u in PAID ==>
      LoaderAfter(LoaderAfter(loader, DeviceUrl(u, FIRMWARE)), DeviceUrl(u, FormFile(n))) == Generated(u).loader
  {
    UrlRoundTrip(Generated(u).server, FIRMWARE);
    UrlRoundTrip(Generated(u).server, FormFile(n));
    XorKeyUndo(SECRET.server, u);
    ServerRecoversKey(u, loader);
    ChoiceRoundTrip(n);
    assert |FormFile(n)| > |FIRMWARE|;
  }

  // ------------------------------------------------------------------- runs of requests

  /** The loader key is one for all devices: what a run of requests makes of it. */
  function LoaderRun(loader: Key, urls: seq<seq<Byte>>): Key
  {
    if urls == [] then loader else LoaderAfter(LoaderRun(loader, urls[..|urls| - 1]), urls[|urls| - 1])
  }

  datatype Device = Nobody | Device(u: Key)

  /** The paid device for which a request opens the selection page. */
  function Opens(url: seq<Byte>): Device
  {
    match ParseRequest(url)
    case NoMatch => Nobody
    case Request(key, file) =>
      if file == FIRMWARE && XorKey(key, SECRET.server) in PAID then Device(XorKey(key, SECRET.server)) else Nobody
  }

  /** The last one in a run. */
  function LastOpened(urls: seq<seq<Byte>>): Device
  {
    if urls == [] then Nobody
    else
      var d := Opens(urls[|urls| - 1]);
      if d.Device? then d else LastOpened(urls[..|urls| - 1])
  }

  lemma {:induction false} RunKey(loader: Key, urls: seq<seq<Byte>>)
    ensures LoaderRun(loader, urls) ==
      match LastOpened(urls)
      case Nobody => loader
      case Device(u) => Generated(u).loader
  {
    if urls != [] {
      RunKey(loader, urls[..|urls| - 1]);
      match Opens(urls[|urls| - 1])
      case Nobody =>
      case Device(u) => XorKeyCommutes(u, SECRET.loader);
    }
  }

  /** Devices have different loader keys. */
  lemma KeysDiffer(u: Key, v: Key)
    ensures Generated(u).loader == Generated(v).loader <==> u == v
  {
    XorKeyUndo(SECRET.loader, u);
    XorKeyUndo(SECRET.loader, v);
  }

  /** The key in use after a run is that of device u. */
  predicate InUse(u: Key, loader: Key, urls: seq<seq<Byte>>)
  {
    match LastOpened(urls)
    case Nobody => loader == Generated(u).loader
    case Device(v) => v == u
  }

  /** After any run of requests, of any devices, the choice of a device is served; it is coded under the device's own
      key if and only if it was the last paid device to open the selection page, or nobody opened it and the key was
      its own from the start. */
  lemma ChoiceInRun(u: Key, loader: Key, urls: seq<seq<Byte>>, n: nat)
    ensures ReplyTo(DeviceUrl(u, FormFile(n))) == Firmware(n)
    ensures LoaderAfter(LoaderRun(loader, urls), DeviceUrl(u, FormFile(n))) == Generated(u).loader <==>
      InUse(u, loader, urls)
  {
    RunKey(loader, urls);
    ChoiceKeepsKey(u, LoaderRun(loader, urls), n);
    if LastOpened(urls).Device? {
      KeysDiffer(u, LastOpened(urls).u);
    }
  }

  lemma ChoiceKeepsKey(u: Key, loader: Key, n: nat)
    ensures ReplyTo(DeviceUrl(u, FormFile(n))) == Firmware(n)
    ensures LoaderAfter(loader, DeviceUrl(u, FormFile(n))) == loader
  {
    UrlRoundTrip(Generated(u).server, FormFile(n));
    ChoiceRoundTrip(n);
    assert |FormFile(n)| > |FIRMWARE|;
  }

  /** A paid device that opens its page is the last one, whatever was before. */
  lemma OpensItsPage(u: Key, urls: seq<seq<Byte>>)
    requires u in PAID
    ensures LastOpened(urls + [DeviceUrl(u, FIRMWARE)]) == Device(u)
  {
    UrlRoundTrip(Generated(u).server, FIRMWARE);
    XorKeyUndo(SECRET.server, u);
  }

  lemma XorKeyCommutes(a: Key, b: Key)
    ensures XorKey(a, b) == XorKey(b, a)
  {
    XorCommutes(a[0], b[0]);
    XorCommutes(a[1], b[1]);
    XorCommutes(a[2], b[2]);
    XorCommutes(a[3], b[3]);
  }

  /** The part of sendImage behind the sscanf, with the loader key in place. */
  method TakeKey(cuid: Key, loader: array<Word>) returns (ok: bool)
    requires loader.Length == 4
    modifies loader
    ensures ok <==> XorKey(cuid, SECRET.server) in PAID
    ensures loader[..] == if ok then XorKey(XorKey(cuid, SECRET.server), SECRET.loader) else old(loader[..])
  {
    var uuid := new Word[4](_ => 0);
    XorInto(cuid, uuid, SECRET.server);
    var i, m := 0, |PAID|;
    ok := true;
    while i < m
      invariant 0 <= i <= m && (i == 0 || !ok)
      invariant forall j :: 0 <= j < i ==> PAID[j] != uuid[..]
      invariant uuid[..] == XorKey(cuid, SECRET.server) && loader[..] == old(loader[..])
    {
      ok := true;
      for n := 0 to 4
        invariant ok && forall j :: 0 <= j < n ==> uuid[j] == PAID[i][j]
      {
        if uuid[n] != PAID[i][n] {
          ok := false;
          break;
        }
      }
      if ok {
        assert uuid[..] == PAID[i];
        break;
      }
      i := i + 1;
    }
    if !ok { return; }
    XorInto(uuid[..], loader, SECRET.loader);
  }

  /** sendImage: which page or firmware is served, and the loader key in place. */
  method SendImage(url: seq<Byte>, loader: array<Word>) returns (r: Reply)
    requires loader.Length == 4
    modifies loader
    ensures r == ReplyTo(url)
    ensures loader[..] == LoaderAfter(old(loader[..]), url)
  {
    match ParseRequest(url)
    case NoMatch => r := NotServed;
    case Request(key, file) =>
      if file == FIRMWARE {
        var ok := TakeKey(key, loader);
        r := if ok then Selection else NotPaid;
      } else {
        var choice := ParseChoice(file);
        r := if choice.NoChoice? then NotServed else Firmware(choice.n);
      }
  }
}
