/** The three ways the scripts shorten an acquisition timestamp such as
    `2019-05-14T11:08:19.061659Z`:
    - the SAR and Sentinel-2 scripts translate it character by character
      (`-`, `:`, `.` and `Z` deleted, `T` turned into `_`) and keep either
      the whole result ("unique") or its first 8 characters ("compact");
    - the Landsat and ortho scripts delete `-` and `:` and keep the first 8
      characters;
    - the Sentinel-2 search script keeps the first 10 characters and deletes
      `-`. */
module DateFormats {
  import opened Text

  /** The translation table `{'-': '', ':': '', 'T': '_', '.': '', 'Z': ''}`. */
  function TranslateChar(c: char): string {
    if c == '-' || c == ':' || c == '.' || c == 'Z' then ""
    else if c == 'T' then "_"
    else [c]
  }

  predicate Translated(c: char) {
    c == '-' || c == ':' || c == '.' || c == 'Z' || c == 'T'
  }

  /** `s.translate(table)` */
  function Translate(s: string): (r: string)
    ensures |r| <= |s|
    ensures forall k :: 0 <= k < |r| ==> !Translated(r[k]) || r[k] == '_'
    ensures forall k :: 0 <= k < |r| ==> r[k] != '-' && r[k] != ':' && r[k] != 'T'
    decreases |s|
  {
    if |s| == 0 then "" else TranslateChar(s[0]) + Translate(s[1..])
  }

  /** What the table does to the characters: every `T` becomes a `_`, the
      other characters of the table disappear, and every character outside
      it is kept as often as it occurs. */
  lemma TranslateCounts(s: string)
    ensures multiset(Translate(s))['_'] == multiset(s)['_'] + multiset(s)['T']
    ensures forall c :: Translated(c) ==> multiset(Translate(s))[c] == 0
    ensures forall c :: !Translated(c) && c != '_' ==> multiset(Translate(s))[c] == multiset(s)[c]
  {
    TranslateCountOf(s, '_');
    forall c | Translated(c) ensures multiset(Translate(s))[c] == 0 {
      TranslateCountOf(s, c);
    }
    forall c | !Translated(c) && c != '_' ensures multiset(Translate(s))[c] == multiset(s)[c] {
      TranslateCountOf(s, c);
    }
  }

  /** The count of one character after translation. */
  lemma {:induction false} TranslateCountOf(s: string, c: char)
    ensures multiset(Translate(s))[c] == TranslatedCount(multiset(s), c)
    decreases |s|
  {
    if |s| > 0 {
      TranslateCountOf(s[1..], c);
      var h := TranslateChar(s[0]);
      var t := Translate(s[1..]);
      assert Translate(s) == h + t;
      assert multiset(h + t) == multiset(h) + multiset(t);
      assert multiset(s) == multiset{s[0]} + multiset(s[1..]) by {
        assert s == [s[0]] + s[1..];
      }
      TranslateCharBag(s[0]);
      BagStep(multiset(s[1..]), s[0], multiset(h), multiset(t), c);
    }
  }

  /** How many `c` the translation of a text with character counts `m`
      holds. */
  function TranslatedCount(m: multiset<char>, c: char): nat {
    if c == '_' then m['_'] + m['T'] else if Translated(c) then 0 else m[c]
  }

  lemma BagStep(m: multiset<char>, x: char, mh: multiset<char>, mt: multiset<char>, c: char)
    requires mh == if x == 'T' then multiset{'_'} else if Translated(x) then multiset{} else multiset{x}
    requires mt[c] == TranslatedCount(m, c)
    ensures (mh + mt)[c] == TranslatedCount(multiset{x} + m, c)
  {
  }

  lemma TranslateCharBag(x: char)
    ensures multiset(TranslateChar(x))
         == if x == 'T' then multiset{'_'} else if Translated(x) then multiset{} else multiset{x}
  {
  }

  /** Translation works character by character. */
  lemma {:induction false} TranslateConcat(s: string, t: string)
    ensures Translate(s + t) == Translate(s) + Translate(t)
    decreases |s|
  {
    if |s| == 0 {
      assert s + t == t;
    } else {
      assert (s + t)[1..] == s[1..] + t;
      TranslateConcat(s[1..], t);
    }
  }

  /** Characters outside the table are kept. */
  lemma {:induction false} TranslateKeeps(s: string)
    requires forall k :: 0 <= k < |s| ==> !Translated(s[k])
    ensures Translate(s) == s
    decreases |s|
  {
    if |s| > 0 {
      TranslateKeeps(s[1..]);
      assert [s[0]] + s[1..] == s;
    }
  }

  /** The "unique" date of the SAR and Sentinel-2 scripts. */
  function UniqueDate(stamp: string): string {
    Translate(stamp)
  }

  /** The "compact" date of the SAR and Sentinel-2 scripts. */
  function CompactDate(stamp: string): (r: string)
    ensures r <= UniqueDate(stamp) && |r| <= 8
  {
    Take(Translate(stamp), 8)
  }

  /** The date of the Landsat and ortho scripts. */
  function ReplacedDate(stamp: string): (r: string)
    ensures |r| <= 8
    ensures '-' !in r && ':' !in r
  {
    ReplaceCharRemoves(stamp, '-', "");
    var a := ReplaceAll(stamp, "-", "");
    ReplaceCharRemoves(a, ':', "");
    ReplaceKeepsAbsent(a, ':', "", '-');
    Take(ReplaceAll(a, ":", ""), 8)
  }

  /** The date of the Sentinel-2 search script. */
  function TrimmedDate(stamp: string): (r: string)
    ensures '-' !in r
  {
    ReplaceCharRemoves(Take(stamp, 10), '-', "");
    ReplaceAll(Take(stamp, 10), "-", "")
  }

  /** A character absent from the input and the replacement stays absent. */
  lemma {:induction false} ReplaceKeepsAbsent(s: string, c: char, rep: string, d: char)
    requires d !in s && d !in rep
    ensures d !in ReplaceAll(s, [c], rep)
    decreases |s|
  {
    if |s| > 0 {
      ReplaceKeepsAbsent(s[1..], c, rep, d);
    }
  }

  // ---------------------------------------------------------------------
  // ISO 8601 timestamps as the metadata gives them
  // ---------------------------------------------------------------------

  /** The fields of `YYYY-MM-DDThh:mm:ss.ffffffZ`. */
  datatype Stamp = Stamp(year: string, month: string, day: string,
                         hour: string, minute: string, second: string, fraction: string)

  predicate WellFormed(st: Stamp) {
    && |st.year| == 4 && |st.month| == 2 && |st.day| == 2
    && |st.hour| == 2 && |st.minute| == 2 && |st.second| == 2
    && AllDigits(st.year) && AllDigits(st.month) && AllDigits(st.day)
    && AllDigits(st.hour) && AllDigits(st.minute) && AllDigits(st.second)
    && AllDigits(st.fraction)
  }

  /** The time part `Thh:mm:ss.ffffffZ`. */
  function RenderTime(st: Stamp): string {
    "T" + (st.hour + (":" + (st.minute + (":" + (st.second + ("." + (st.fraction + "Z")))))))
  }

  function Render(st: Stamp): string {
    st.year + ("-" + (st.month + ("-" + (st.day + RenderTime(st)))))
  }

  function DateDigits(st: Stamp): string {
    st.year + (st.month + st.day)
  }

  function TimeDigits(st: Stamp): string {
    st.hour + (st.minute + (st.second + st.fraction))
  }

  lemma DigitsThen(x: string, rest: string, r: string)
    requires AllDigits(x) && Translate(rest) == r
    ensures Translate(x + rest) == x + r
  {
    TranslateConcat(x, rest);
    TranslateKeeps(x);
  }

  lemma CharThen(c: char, rest: string, r: string)
    requires Translate(rest) == r
    ensures Translate([c] + rest) == TranslateChar(c) + r
  {
    assert ([c] + rest)[1..] == rest;
  }

  lemma TranslateTime(st: Stamp)
    requires WellFormed(st)
    ensures Translate(RenderTime(st)) == "_" + TimeDigits(st)
  {
    var fz := st.fraction + "Z";
    CharThen('Z', "", "");
    DigitsThen(st.fraction, "Z", "");
    var f := "." + fz;
    CharThen('.', fz, st.fraction);
    var sf := st.second + f;
    DigitsThen(st.second, f, st.fraction);
    var c2 := ":" + sf;
    CharThen(':', sf, st.second + st.fraction);
    var msf := st.minute + c2;
    DigitsThen(st.minute, c2, st.second + st.fraction);
    var c1 := ":" + msf;
    CharThen(':', msf, st.minute + (st.second + st.fraction));
    var hms := st.hour + c1;
    DigitsThen(st.hour, c1, st.minute + (st.second + st.fraction));
    CharThen('T', hms, TimeDigits(st));
  }

  /** The unique date of a timestamp is its date digits, `_`, and its time
      digits including the fraction of a second. */
  lemma UniqueOfStamp(st: Stamp)
    requires WellFormed(st)
    ensures UniqueDate(Render(st)) == DateDigits(st) + ("_" + TimeDigits(st))
  {
    var t := RenderTime(st);
    var u := "_" + TimeDigits(st);
    TranslateTime(st);
    var dt := st.day + t;
    DigitsThen(st.day, t, u);
    var c2 := "-" + dt;
    CharThen('-', dt, st.day + u);
    var mdt := st.month + c2;
    DigitsThen(st.month, c2, st.day + u);
    var c1 := "-" + mdt;
    CharThen('-', mdt, st.month + (st.day + u));
    DigitsThen(st.year, c1, st.month + (st.day + u));
    Regroup(st.year, st.month, st.day, u);
  }

  lemma Regroup(a: string, b: string, c: string, d: string)
    ensures a + (b + (c + d)) == (a + (b + c)) + d
  {
  }

  /** The first eight characters of a longer string that starts with eight
      given characters are those characters. */
  lemma TakePrefix(p: string, rest: string)
    requires |p| == 8
    ensures Take(p + rest, 8) == p
  {
    assert (p + rest)[..8] == p;
  }

  /** The compact date of a timestamp is `YYYYMMDD`. */
  lemma CompactOfStamp(st: Stamp)
    requires WellFormed(st)
    ensures CompactDate(Render(st)) == DateDigits(st)
  {
    UniqueOfStamp(st);
    TakePrefix(DateDigits(st), "_" + TimeDigits(st));
  }

  /** One step of deleting a character: a piece without it is kept. */
  lemma KeepThen(x: string, c: char, rest: string, r: string)
    requires c !in x && ReplaceAll(rest, [c], "") == r
    ensures ReplaceAll(x + rest, [c], "") == x + r
  {
    ReplaceCharConcat(x, rest, [c], "");
    ReplaceCharAbsent(x, c, "");
  }

  /** One step of deleting a character: the character itself goes. */
  lemma DropThen(c: char, rest: string, r: string)
    requires ReplaceAll(rest, [c], "") == r
    ensures ReplaceAll([c] + rest, [c], "") == r
  {
    assert ([c] + rest)[..1] == [c];
    assert ([c] + rest)[1..] == rest;
  }

  /** Deleting `:` from the time part. */
  lemma DeleteColons(st: Stamp)
    requires WellFormed(st)
    ensures ReplaceAll(RenderTime(st), ":", "")
         == "T" + (st.hour + (st.minute + (st.second + ("." + (st.fraction + "Z")))))
  {
    var f := "." + (st.fraction + "Z");
    NoCharInDigits(st.hour, ':');
    NoCharInDigits(st.minute, ':');
    NoCharInDigits(st.second, ':');
    NoCharInDigits(st.fraction, ':');
    assert ':' !in f;
    ReplaceCharAbsent(f, ':', "");
    var sf := st.second + f;
    KeepThen(st.second, ':', f, f);
    var c2 := ":" + sf;
    DropThen(':', sf, sf);
    var msf := st.minute + c2;
    KeepThen(st.minute, ':', c2, sf);
    var c1 := ":" + msf;
    DropThen(':', msf, st.minute + sf);
    var hms := st.hour + c1;
    KeepThen(st.hour, ':', c1, st.minute + sf);
    KeepThen("T", ':', hms, st.hour + (st.minute + sf));
  }

  /** Deleting `-` from a timestamp. */
  lemma DeleteHyphens(st: Stamp)
    requires WellFormed(st)
    ensures ReplaceAll(Render(st), "-", "") == st.year + (st.month + (st.day + RenderTime(st)))
  {
    var t := RenderTime(st);
    NoCharInDigits(st.year, '-');
    NoCharInDigits(st.month, '-');
    NoCharInDigits(st.day, '-');
    NoCharInDigits(st.hour, '-');
    NoCharInDigits(st.minute, '-');
    NoCharInDigits(st.second, '-');
    NoCharInDigits(st.fraction, '-');
    assert '-' !in t;
    ReplaceCharAbsent(t, '-', "");
    var dt := st.day + t;
    KeepThen(st.day, '-', t, t);
    var c2 := "-" + dt;
    DropThen('-', dt, dt);
    var mdt := st.month + c2;
    KeepThen(st.month, '-', c2, dt);
    var c1 := "-" + mdt;
    DropThen('-', mdt, st.month + dt);
    KeepThen(st.year, '-', c1, st.month + dt);
  }

  /** Deleting `-` and then `:` from a timestamp. */
  lemma ReplacedOfStamp(st: Stamp)
    requires WellFormed(st)
    ensures ReplaceAll(ReplaceAll(Render(st), "-", ""), ":", "")
         == DateDigits(st) + ("T" + (st.hour + (st.minute + (st.second + ("." + (st.fraction + "Z"))))))
  {
    var t := RenderTime(st);
    var t' := "T" + (st.hour + (st.minute + (st.second + ("." + (st.fraction + "Z")))));
    DeleteHyphens(st);
    DeleteColons(st);
    NoCharInDigits(st.year, ':');
    NoCharInDigits(st.month, ':');
    NoCharInDigits(st.day, ':');
    KeepThen(st.day, ':', t, t');
    KeepThen(st.month, ':', st.day + t, st.day + t');
    KeepThen(st.year, ':', st.month + (st.day + t), st.month + (st.day + t'));
    Regroup(st.year, st.month, st.day, t');
  }

  lemma NoCharInDigits(s: string, c: char)
    requires AllDigits(s) && !IsDigit(c)
    ensures c !in s
  {
    assert forall k :: 0 <= k < |s| ==> s[k] != c;
  }

  /** The Landsat and ortho date of a timestamp is `YYYYMMDD` as well. */
  lemma ReplacedDateOfStamp(st: Stamp)
    requires WellFormed(st)
    ensures ReplacedDate(Render(st)) == DateDigits(st)
  {
    ReplacedOfStamp(st);
    TakePrefix(DateDigits(st), "T" + (st.hour + (st.minute + (st.second + ("." + (st.fraction + "Z"))))));
  }

  /** So is the date of the Sentinel-2 search script. */
  lemma TrimmedDateOfStamp(st: Stamp)
    requires WellFormed(st)
    ensures TrimmedDate(Render(st)) == DateDigits(st)
  {
    var d := st.year + ("-" + (st.month + ("-" + st.day)));
    DatePartOfStamp(st);
    NoCharInDigits(st.year, '-');
    NoCharInDigits(st.month, '-');
    NoCharInDigits(st.day, '-');
    ReplaceCharAbsent(st.day, '-', "");
    ReplaceCharAbsent(st.month, '-', "");
    ReplaceCharAbsent(st.year, '-', "");
    ReplaceCharConcat("-", st.day, "-", "");
    ReplaceCharConcat(st.month, "-" + st.day, "-", "");
    ReplaceCharConcat("-", st.month + ("-" + st.day), "-", "");
    ReplaceCharConcat(st.year, "-" + (st.month + ("-" + st.day)), "-", "");
    DashRemoved();
  }

  /** The first ten characters of a rendered timestamp are its date. */
  lemma DatePartOfStamp(st: Stamp)
    requires WellFormed(st)
    ensures Take(Render(st), 10) == st.year + ("-" + (st.month + ("-" + st.day)))
  {
    var d := st.year + ("-" + (st.month + ("-" + st.day)));
    assert Render(st) == d + RenderTime(st);
    assert |d| == 10;
    assert Render(st)[..10] == d;
  }

  lemma DashRemoved()
    ensures ReplaceAll("-", "-", "") == ""
  {
    assert ReplaceAll("-", "-", "") == "";
  }

  /** All three shortenings give the same `YYYYMMDD` for a well-formed
      timestamp. */
  lemma DatesAgree(st: Stamp)
    requires WellFormed(st)
    ensures CompactDate(Render(st)) == ReplacedDate(Render(st)) == TrimmedDate(Render(st))
  {
    CompactOfStamp(st);
    ReplacedDateOfStamp(st);
    TrimmedDateOfStamp(st);
  }
}
