/**
  * The 253 named entities of the decoder, in the order of the source, each text given by its code
  * point, and the proof that they form a valid table. The rows come in runs of eleven, written as
  * lists, which the verifier handles better than long sequence displays.
  */
module EntityTable {
  import opened EntityLookup
  import opened Text
  import Utf8

  datatype Rows = End | Row(key: string, cp: nat, rest: Rows)

  const RUN0 :=
    Row("AElig;", 0xC6, Row("Aacute;", 0xC1, Row("Acirc;", 0xC2, Row("Agrave;", 0xC0,
    Row("Alpha;", 0x391, Row("Aring;", 0xC5, Row("Atilde;", 0xC3, Row("Auml;", 0xC4,
    Row("Beta;", 0x392, Row("Ccedil;", 0xC7, Row("Chi;", 0x3A7, End)))))))))))
  const RUN1 :=
    Row("Dagger;", 0x2021, Row("Delta;", 0x394, Row("ETH;", 0xD0, Row("Eacute;", 0xC9,
    Row("Ecirc;", 0xCA, Row("Egrave;", 0xC8, Row("Epsilon;", 0x395, Row("Eta;", 0x397,
    Row("Euml;", 0xCB, Row("Gamma;", 0x393, Row("Iacute;", 0xCD, End)))))))))))
  const RUN2 :=
    Row("Icirc;", 0xCE, Row("Igrave;", 0xCC, Row("Iota;", 0x399, Row("Iuml;", 0xCF,
    Row("Kappa;", 0x39A, Row("Lambda;", 0x39B, Row("Mu;", 0x39C, Row("Ntilde;", 0xD1,
    Row("Nu;", 0x39D, Row("OElig;", 0x152, Row("Oacute;", 0xD3, End)))))))))))
  const RUN3 :=
    Row("Ocirc;", 0xD4, Row("Ograve;", 0xD2, Row("Omega;", 0x3A9, Row("Omicron;", 0x39F,
    Row("Oslash;", 0xD8, Row("Otilde;", 0xD5, Row("Ouml;", 0xD6, Row("Phi;", 0x3A6,
    Row("Pi;", 0x3A0, Row("Prime;", 0x2033, Row("Psi;", 0x3A8, End)))))))))))
  const RUN4 :=
    Row("Rho;", 0x3A1, Row("Scaron;", 0x160, Row("Sigma;", 0x3A3, Row("THORN;", 0xDE,
    Row("Tau;", 0x3A4, Row("Theta;", 0x398, Row("Uacute;", 0xDA, Row("Ucirc;", 0xDB,
    Row("Ugrave;", 0xD9, Row("Upsilon;", 0x3A5, Row("Uuml;", 0xDC, End)))))))))))
  const RUN5 :=
    Row("Xi;", 0x39E, Row("Yacute;", 0xDD, Row("Yuml;", 0x178, Row("Zeta;", 0x396,
    Row("aacute;", 0xE1, Row("acirc;", 0xE2, Row("acute;", 0xB4, Row("aelig;", 0xE6,
    Row("agrave;", 0xE0, Row("alefsym;", 0x2135, Row("alpha;", 0x3B1, End)))))))))))
  const RUN6 :=
    Row("amp;", 0x26, Row("and;", 0x2227, Row("ang;", 0x2220, Row("apos;", 0x27,
    Row("aring;", 0xE5, Row("asymp;", 0x2248, Row("atilde;", 0xE3, Row("auml;", 0xE4,
    Row("bdquo;", 0x201E, Row("beta;", 0x3B2, Row("brvbar;", 0xA6, End)))))))))))
  const RUN7 :=
    Row("bull;", 0x2022, Row("cap;", 0x2229, Row("ccedil;", 0xE7, Row("cedil;", 0xB8,
    Row("cent;", 0xA2, Row("chi;", 0x3C7, Row("circ;", 0x2C6, Row("clubs;", 0x2663,
    Row("cong;", 0x2245, Row("copy;", 0xA9, Row("crarr;", 0x21B5, End)))))))))))
  const RUN8 :=
    Row("cup;", 0x222A, Row("curren;", 0xA4, Row("dArr;", 0x21D3, Row("dagger;", 0x2020,
    Row("darr;", 0x2193, Row("deg;", 0xB0, Row("delta;", 0x3B4, Row("diams;", 0x2666,
    Row("divide;", 0xF7, Row("eacute;", 0xE9, Row("ecirc;", 0xEA, End)))))))))))
  const RUN9 :=
    Row("egrave;", 0xE8, Row("empty;", 0x2205, Row("emsp;", 0x2003, Row("ensp;", 0x2002,
    Row("epsilon;", 0x3B5, Row("equiv;", 0x2261, Row("eta;", 0x3B7, Row("eth;", 0xF0,
    Row("euml;", 0xEB, Row("euro;", 0x20AC, Row("exist;", 0x2203, End)))))))))))
  const RUN10 :=
    Row("fnof;", 0x192, Row("forall;", 0x2200, Row("frac12;", 0xBD, Row("frac14;", 0xBC,
    Row("frac34;", 0xBE, Row("frasl;", 0x2044, Row("gamma;", 0x3B3, Row("ge;", 0x2265,
    Row("gt;", 0x3E, Row("hArr;", 0x21D4, Row("harr;", 0x2194, End)))))))))))
  const RUN11 :=
    Row("hearts;", 0x2665, Row("hellip;", 0x2026, Row("iacute;", 0xED, Row("icirc;", 0xEE,
    Row("iexcl;", 0xA1, Row("igrave;", 0xEC, Row("image;", 0x2111, Row("infin;", 0x221E,
    Row("int;", 0x222B, Row("iota;", 0x3B9, Row("iquest;", 0xBF, End)))))))))))
  const RUN12 :=
    Row("isin;", 0x2208, Row("iuml;", 0xEF, Row("kappa;", 0x3BA, Row("lArr;", 0x21D0,
    Row("lambda;", 0x3BB, Row("lang;", 0x3008, Row("laquo;", 0xAB, Row("larr;", 0x2190,
    Row("lceil;", 0x2308, Row("ldquo;", 0x201C, Row("le;", 0x2264, End)))))))))))
  const RUN13 :=
    Row("lfloor;", 0x230A, Row("lowast;", 0x2217, Row("loz;", 0x25CA, Row("lrm;", 0x200E,
    Row("lsaquo;", 0x2039, Row("lsquo;", 0x2018, Row("lt;", 0x3C, Row("macr;", 0xAF,
    Row("mdash;", 0x2014, Row("micro;", 0xB5, Row("middot;", 0xB7, End)))))))))))
  const RUN14 :=
    Row("minus;", 0x2212, Row("mu;", 0x3BC, Row("nabla;", 0x2207, Row("nbsp;", 0xA0,
    Row("ndash;", 0x2013, Row("ne;", 0x2260, Row("ni;", 0x220B, Row("not;", 0xAC,
    Row("notin;", 0x2209, Row("nsub;", 0x2284, Row("ntilde;", 0xF1, End)))))))))))
  const RUN15 :=
    Row("nu;", 0x3BD, Row("oacute;", 0xF3, Row("ocirc;", 0xF4, Row("oelig;", 0x153,
    Row("ograve;", 0xF2, Row("oline;", 0x203E, Row("omega;", 0x3C9, Row("omicron;", 0x3BF,
    Row("oplus;", 0x2295, Row("or;", 0x2228, Row("ordf;", 0xAA, End)))))))))))
  const RUN16 :=
    Row("ordm;", 0xBA, Row("oslash;", 0xF8, Row("otilde;", 0xF5, Row("otimes;", 0x2297,
    Row("ouml;", 0xF6, Row("para;", 0xB6, Row("part;", 0x2202, Row("permil;", 0x2030,
    Row("perp;", 0x22A5, Row("phi;", 0x3C6, Row("pi;", 0x3C0, End)))))))))))
  const RUN17 :=
    Row("piv;", 0x3D6, Row("plusmn;", 0xB1, Row("pound;", 0xA3, Row("prime;", 0x2032,
    Row("prod;", 0x220F, Row("prop;", 0x221D, Row("psi;", 0x3C8, Row("quot;", 0x22,
    Row("rArr;", 0x21D2, Row("radic;", 0x221A, Row("rang;", 0x3009, End)))))))))))
  const RUN18 :=
    Row("raquo;", 0xBB, Row("rarr;", 0x2192, Row("rceil;", 0x2309, Row("rdquo;", 0x201D,
    Row("real;", 0x211C, Row("reg;", 0xAE, Row("rfloor;", 0x230B, Row("rho;", 0x3C1,
    Row("rlm;", 0x200F, Row("rsaquo;", 0x203A, Row("rsquo;", 0x2019, End)))))))))))
  const RUN19 :=
    Row("sbquo;", 0x201A, Row("scaron;", 0x161, Row("sdot;", 0x22C5, Row("sect;", 0xA7,
    Row("shy;", 0xAD, Row("sigma;", 0x3C3, Row("sigmaf;", 0x3C2, Row("sim;", 0x223C,
    Row("spades;", 0x2660, Row("sub;", 0x2282, Row("sube;", 0x2286, End)))))))))))
  const RUN20 :=
    Row("sum;", 0x2211, Row("sup1;", 0xB9, Row("sup2;", 0xB2, Row("sup3;", 0xB3,
    Row("sup;", 0x2283, Row("supe;", 0x2287, Row("szlig;", 0xDF, Row("tau;", 0x3C4,
    Row("there4;", 0x2234, Row("theta;", 0x3B8, Row("thetasym;", 0x3D1, End)))))))))))
  const RUN21 :=
    Row("thinsp;", 0x2009, Row("thorn;", 0xFE, Row("tilde;", 0x2DC, Row("times;", 0xD7,
    Row("trade;", 0x2122, Row("uArr;", 0x21D1, Row("uacute;", 0xFA, Row("uarr;", 0x2191,
    Row("ucirc;", 0xFB, Row("ugrave;", 0xF9, Row("uml;", 0xA8, End)))))))))))
  const RUN22 :=
    Row("upsih;", 0x3D2, Row("upsilon;", 0x3C5, Row("uuml;", 0xFC, Row("weierp;", 0x2118,
    Row("xi;", 0x3BE, Row("yacute;", 0xFD, Row("yen;", 0xA5, Row("yuml;", 0xFF,
    Row("zeta;", 0x3B6, Row("zwj;", 0x200D, Row("zwnj;", 0x200C, End)))))))))))

  function ToTable(rows: Rows): (t: Table)
    ensures rows.Row? ==> t != [] && t[0] == Named(rows.key, rows.cp)
  {
    match rows
    case End => []
    case Row(key, cp, rest) => [Named(key, cp)] + ToTable(rest)
  }

  /** The runs in order. */
  datatype Runs = None | More(run: Rows, rest: Runs)

  function Flatten(runs: Runs): Table {
    if runs.None? then [] else ToTable(runs.run) + Flatten(runs.rest)
  }

  const FROM22 := More(RUN22, None)
  const FROM21 := More(RUN21, FROM22)
  const FROM20 := More(RUN20, FROM21)
  const FROM19 := More(RUN19, FROM20)
  const FROM18 := More(RUN18, FROM19)
  const FROM17 := More(RUN17, FROM18)
  const FROM16 := More(RUN16, FROM17)
  const FROM15 := More(RUN15, FROM16)
  const FROM14 := More(RUN14, FROM15)
  const FROM13 := More(RUN13, FROM14)
  const FROM12 := More(RUN12, FROM13)
  const FROM11 := More(RUN11, FROM12)
  const FROM10 := More(RUN10, FROM11)
  const FROM9 := More(RUN9, FROM10)
  const FROM8 := More(RUN8, FROM9)
  const FROM7 := More(RUN7, FROM8)
  const FROM6 := More(RUN6, FROM7)
  const FROM5 := More(RUN5, FROM6)
  const FROM4 := More(RUN4, FROM5)
  const FROM3 := More(RUN3, FROM4)
  const FROM2 := More(RUN2, FROM3)
  const FROM1 := More(RUN1, FROM2)
  const FROM0 := More(RUN0, FROM1)

  const NAMED_ENTITIES: Table := Flatten(FROM0)

  // ---- order within a run ----------------------------------------------------------------

  /** The keys agree before position `d` and the first is smaller there. */
  predicate DiffersAt(a: string, b: string, d: nat) {
    && d < |a| && d < |b| && d < 8 && a[d] < b[d]
    && (d > 0 ==> a[0] == b[0]) && (d > 1 ==> a[1] == b[1]) && (d > 2 ==> a[2] == b[2]) && (d > 3 ==> a[3] == b[3])
    && (d > 4 ==> a[4] == b[4]) && (d > 5 ==> a[5] == b[5]) && (d > 6 ==> a[6] == b[6])
  }

  predicate Plain(c: char) {
    c != ';' && c != '&' && c != NUL
  }

  /** A key of the table's lengths, which leave room for any character in place of `&` and the key. */
  predicate KeyShape(key: string) {
    && 3 <= |key| <= 9 && key[|key| - 1] == ';' && Plain(key[0]) && Plain(key[1])
    && (|key| > 3 ==> Plain(key[2])) && (|key| > 4 ==> Plain(key[3])) && (|key| > 5 ==> Plain(key[4]))
    && (|key| > 6 ==> Plain(key[5])) && (|key| > 7 ==> Plain(key[6])) && (|key| > 8 ==> Plain(key[7]))
  }

  ghost predicate Ascending(rows: Rows) {
    rows.Row? ==>
      && KeyShape(rows.key) && 0 < rows.cp <= Utf8.UNICODE_MAX
      && (rows.rest.Row? ==> Less(rows.key, rows.rest.key))
      && Ascending(rows.rest)
  }

  function LastKey(rows: Rows): string {
    if rows.End? then "" else if rows.rest.End? then rows.key else LastKey(rows.rest)
  }

  /** A run that ends with the key `last`. */
  ghost predicate Run(rows: Rows, last: string) {
    rows.Row? && Ascending(rows) && LastKey(rows) == last
  }

  /** Ascending runs that meet in ascending order. */
  ghost predicate Linked(runs: Runs) {
    runs.More? ==>
      && runs.run.Row? && Ascending(runs.run) && Linked(runs.rest)
      && (runs.rest.More? ==> Less(LastKey(runs.run), runs.rest.run.key))
  }

  /** What a stretch of the table contributes: it is valid, and these are its first and last keys. */
  ghost predicate Stretch(t: Table, first: string, last: string) {
    ValidTable(t) && t != [] && t[0].key == first && t[|t| - 1].key == last
  }

  lemma {:induction false} DiffersAtIsLess(a: string, b: string, d: nat)
    requires DiffersAt(a, b, d)
    ensures Less(a, b)
  {
    if d > 0 {
      DiffersAtIsLess(a[1..], b[1..], d - 1);
    }
  }

  lemma {:induction false} LessTransitive(a: string, b: string, c: string)
    requires Less(a, b) && Less(b, c)
    ensures Less(a, c)
  {
    if a != "" && a[0] == b[0] && b[0] == c[0] {
      LessTransitive(a[1..], b[1..], c[1..]);
    }
  }

  lemma KeyShapeIsValid(key: string, cp: nat)
    requires KeyShape(key) && 0 < cp <= Utf8.UNICODE_MAX
    ensures Named(key, cp).Valid()
  {
    forall k | 0 <= k < |key| - 1 ensures Plain(key[k]) {
    }
  }

  lemma {:induction false} HeadLeast(rows: Rows, i: nat)
    requires Ascending(rows) && rows.Row? && i < |ToTable(rows.rest)|
    ensures Less(rows.key, ToTable(rows.rest)[i].key)
  {
    if i > 0 {
      HeadLeast(rows.rest, i - 1);
      LessTransitive(rows.key, rows.rest.key, ToTable(rows.rest)[i].key);
    }
  }

  lemma {:induction false} RunIsStretch(rows: Rows, last: string)
    requires Run(rows, last)
    ensures Stretch(ToTable(rows), rows.key, last)
  {
    var t := ToTable(rows);
    KeyShapeIsValid(rows.key, rows.cp);
    if rows.rest.Row? {
      RunIsStretch(rows.rest, last);
    }
    forall i, j | 0 <= i < j < |t| ensures Less(t[i].key, t[j].key) {
      if i == 0 {
        HeadLeast(rows, j - 1);
      }
    }
  }

  lemma Join(a: Table, first: string, last: string, b: Table, next: string, end: string)
    requires Stretch(a, first, last) && Stretch(b, next, end) && Less(last, next)
    ensures Stretch(a + b, first, end)
  {
    var t := a + b;
    forall i, j | 0 <= i < j < |t| ensures Less(t[i].key, t[j].key) {
      if i < |a| <= j {
        if i < |a| - 1 {
          LessTransitive(t[i].key, last, next);
        }
        if |a| < j {
          LessTransitive(t[i].key, next, t[j].key);
        }
      }
    }
  }

  lemma RunAscends(rows: Rows, last: string)
    requires Run(rows, last)
    ensures rows.Row? && Ascending(rows)
  {
  }

  lemma {:induction false} LinkedIsValid(runs: Runs)
    requires Linked(runs)
    ensures ValidTable(Flatten(runs))
    ensures runs.More? ==> Flatten(runs) != [] && Flatten(runs)[0].key == runs.run.key
  {
    if runs.More? {
      LinkedIsValid(runs.rest);
      RunIsStretch(runs.run, LastKey(runs.run));
      if runs.rest.More? {
        var t := Flatten(runs.rest);
        Join(ToTable(runs.run), runs.run.key, LastKey(runs.run), t, runs.rest.run.key, t[|t| - 1].key);
      }
    }
  }

  lemma KeepRows(runs: Runs)
    requires runs.More?
    ensures forall row :: row in ToTable(runs.run) || row in Flatten(runs.rest) ==> row in Flatten(runs)
  {
  }

  function Nth(rows: Rows, n: nat): Rows
    decreases n
  {
    if n == 0 || rows.End? then rows else Nth(rows.rest, n - 1)
  }

  lemma {:induction false} RowInTable(row: Rows, rows: Rows, n: nat)
    requires Nth(rows, n) == row && row.Row?
    ensures Named(row.key, row.cp) in ToTable(rows)
    decreases n
  {
    if n > 0 {
      RowInTable(row, rows.rest, n - 1);
    }
  }

  // ---- the runs --------------------------------------------------------------------------

  lemma Last(key: string, cp: nat) returns (rows: Rows)
    requires KeyShape(key) && 0 < cp <= Utf8.UNICODE_MAX
    ensures rows == Row(key, cp, End) && Run(rows, key)
  {
    rows := Row(key, cp, End);
  }

  /** Puts a row before a run; `d` is where its key differs from the key of the next row. */
  lemma Next(key: string, cp: nat, d: nat, rest: Rows, last: string) returns (rows: Rows)
    requires Run(rest, last) && KeyShape(key) && 0 < cp <= Utf8.UNICODE_MAX
    requires DiffersAt(key, rest.key, d)
    ensures rows == Row(key, cp, rest) && Run(rows, last)
  {
    rows := Row(key, cp, rest);
    DiffersAtIsLess(key, rest.key, d);
  }

  lemma Run0()
    ensures RUN0.Row? && Ascending(RUN0)
  {
    hide Run;
    var r := Last("Chi;", 0x3A7);
    r := Next("Ccedil;", 0xC7, 1, r, "Chi;");
    r := Next("Beta;", 0x392, 0, r, "Chi;");
    r := Next("Auml;", 0xC4, 0, r, "Chi;");
    r := Next("Atilde;", 0xC3, 1, r, "Chi;");
    r := Next("Aring;", 0xC5, 1, r, "Chi;");
    r := Next("Alpha;", 0x391, 1, r, "Chi;");
    r := Next("Agrave;", 0xC0, 1, r, "Chi;");
    r := Next("Acirc;", 0xC2, 1, r, "Chi;");
    r := Next("Aacute;", 0xC1, 1, r, "Chi;");
    r := Next("AElig;", 0xC6, 1, r, "Chi;");
    RunAscends(RUN0, "Chi;");
  }

  lemma Run1()
    ensures RUN1.Row? && Ascending(RUN1)
  {
    hide Run;
    var r := Last("Iacute;", 0xCD);
    r := Next("Gamma;", 0x393, 0, r, "Iacute;");
    r := Next("Euml;", 0xCB, 0, r, "Iacute;");
    r := Next("Eta;", 0x397, 1, r, "Iacute;");
    r := Next("Epsilon;", 0x395, 1, r, "Iacute;");
    r := Next("Egrave;", 0xC8, 1, r, "Iacute;");
    r := Next("Ecirc;", 0xCA, 1, r, "Iacute;");
    r := Next("Eacute;", 0xC9, 1, r, "Iacute;");
    r := Next("ETH;", 0xD0, 1, r, "Iacute;");
    r := Next("Delta;", 0x394, 0, r, "Iacute;");
    r := Next("Dagger;", 0x2021, 1, r, "Iacute;");
    RunAscends(RUN1, "Iacute;");
  }

  lemma Run2()
    ensures RUN2.Row? && Ascending(RUN2)
  {
    hide Run;
    var r := Last("Oacute;", 0xD3);
    r := Next("OElig;", 0x152, 1, r, "Oacute;");
    r := Next("Nu;", 0x39D, 0, r, "Oacute;");
    r := Next("Ntilde;", 0xD1, 1, r, "Oacute;");
    r := Next("Mu;", 0x39C, 0, r, "Oacute;");
    r := Next("Lambda;", 0x39B, 0, r, "Oacute;");
    r := Next("Kappa;", 0x39A, 0, r, "Oacute;");
    r := Next("Iuml;", 0xCF, 0, r, "Oacute;");
    r := Next("Iota;", 0x399, 1, r, "Oacute;");
    r := Next("Igrave;", 0xCC, 1, r, "Oacute;");
    r := Next("Icirc;", 0xCE, 1, r, "Oacute;");
    RunAscends(RUN2, "Oacute;");
  }

  lemma Run3()
    ensures RUN3.Row? && Ascending(RUN3)
  {
    hide Run;
    var r := Last("Psi;", 0x3A8);
    r := Next("Prime;", 0x2033, 1, r, "Psi;");
    r := Next("Pi;", 0x3A0, 1, r, "Psi;");
    r := Next("Phi;", 0x3A6, 1, r, "Psi;");
    r := Next("Ouml;", 0xD6, 0, r, "Psi;");
    r := Next("Otilde;", 0xD5, 1, r, "Psi;");
    r := Next("Oslash;", 0xD8, 1, r, "Psi;");
    r := Next("Omicron;", 0x39F, 1, r, "Psi;");
    r := Next("Omega;", 0x3A9, 2, r, "Psi;");
    r := Next("Ograve;", 0xD2, 1, r, "Psi;");
    r := Next("Ocirc;", 0xD4, 1, r, "Psi;");
    RunAscends(RUN3, "Psi;");
  }

  lemma Run4()
    ensures RUN4.Row? && Ascending(RUN4)
  {
    hide Run;
    var r := Last("Uuml;", 0xDC);
    r := Next("Upsilon;", 0x3A5, 1, r, "Uuml;");
    r := Next("Ugrave;", 0xD9, 1, r, "Uuml;");
    r := Next("Ucirc;", 0xDB, 1, r, "Uuml;");
    r := Next("Uacute;", 0xDA, 1, r, "Uuml;");
    r := Next("Theta;", 0x398, 0, r, "Uuml;");
    r := Next("Tau;", 0x3A4, 1, r, "Uuml;");
    r := Next("THORN;", 0xDE, 1, r, "Uuml;");
    r := Next("Sigma;", 0x3A3, 0, r, "Uuml;");
    r := Next("Scaron;", 0x160, 1, r, "Uuml;");
    r := Next("Rho;", 0x3A1, 0, r, "Uuml;");
    RunAscends(RUN4, "Uuml;");
  }

  lemma Run5()
    ensures RUN5.Row? && Ascending(RUN5)
  {
    hide Run;
    var r := Last("alpha;", 0x3B1);
    r := Next("alefsym;", 0x2135, 2, r, "alpha;");
    r := Next("agrave;", 0xE0, 1, r, "alpha;");
    r := Next("aelig;", 0xE6, 1, r, "alpha;");
    r := Next("acute;", 0xB4, 1, r, "alpha;");
    r := Next("acirc;", 0xE2, 2, r, "alpha;");
    r := Next("aacute;", 0xE1, 1, r, "alpha;");
    r := Next("Zeta;", 0x396, 0, r, "alpha;");
    r := Next("Yuml;", 0x178, 0, r, "alpha;");
    r := Next("Yacute;", 0xDD, 1, r, "alpha;");
    r := Next("Xi;", 0x39E, 0, r, "alpha;");
    RunAscends(RUN5, "alpha;");
  }

  lemma Run6()
    ensures RUN6.Row? && Ascending(RUN6)
  {
    hide Run;
    var r := Last("brvbar;", 0xA6);
    r := Next("beta;", 0x3B2, 1, r, "brvbar;");
    r := Next("bdquo;", 0x201E, 1, r, "brvbar;");
    r := Next("auml;", 0xE4, 0, r, "brvbar;");
    r := Next("atilde;", 0xE3, 1, r, "brvbar;");
    r := Next("asymp;", 0x2248, 1, r, "brvbar;");
    r := Next("aring;", 0xE5, 1, r, "brvbar;");
    r := Next("apos;", 0x27, 1, r, "brvbar;");
    r := Next("ang;", 0x2220, 1, r, "brvbar;");
    r := Next("and;", 0x2227, 2, r, "brvbar;");
    r := Next("amp;", 0x26, 1, r, "brvbar;");
    RunAscends(RUN6, "brvbar;");
  }

  lemma Run7()
    ensures RUN7.Row? && Ascending(RUN7)
  {
    hide Run;
    var r := Last("crarr;", 0x21B5);
    r := Next("copy;", 0xA9, 1, r, "crarr;");
    r := Next("cong;", 0x2245, 2, r, "crarr;");
    r := Next("clubs;", 0x2663, 1, r, "crarr;");
    r := Next("circ;", 0x2C6, 1, r, "crarr;");
    r := Next("chi;", 0x3C7, 1, r, "crarr;");
    r := Next("cent;", 0xA2, 1, r, "crarr;");
    r := Next("cedil;", 0xB8, 2, r, "crarr;");
    r := Next("ccedil;", 0xE7, 1, r, "crarr;");
    r := Next("cap;", 0x2229, 1, r, "crarr;");
    r := Next("bull;", 0x2022, 0, r, "crarr;");
    RunAscends(RUN7, "crarr;");
  }

  lemma Run8()
    ensures RUN8.Row? && Ascending(RUN8)
  {
    hide Run;
    var r := Last("ecirc;", 0xEA);
    r := Next("eacute;", 0xE9, 1, r, "ecirc;");
    r := Next("divide;", 0xF7, 0, r, "ecirc;");
    r := Next("diams;", 0x2666, 2, r, "ecirc;");
    r := Next("delta;", 0x3B4, 1, r, "ecirc;");
    r := Next("deg;", 0xB0, 2, r, "ecirc;");
    r := Next("darr;", 0x2193, 1, r, "ecirc;");
    r := Next("dagger;", 0x2020, 2, r, "ecirc;");
    r := Next("dArr;", 0x21D3, 1, r, "ecirc;");
    r := Next("curren;", 0xA4, 0, r, "ecirc;");
    r := Next("cup;", 0x222A, 2, r, "ecirc;");
    RunAscends(RUN8, "ecirc;");
  }

  lemma Run9()
    ensures RUN9.Row? && Ascending(RUN9)
  {
    hide Run;
    var r := Last("exist;", 0x2203);
    r := Next("euro;", 0x20AC, 1, r, "exist;");
    r := Next("euml;", 0xEB, 2, r, "exist;");
    r := Next("eth;", 0xF0, 1, r, "exist;");
    r := Next("eta;", 0x3B7, 2, r, "exist;");
    r := Next("equiv;", 0x2261, 1, r, "exist;");
    r := Next("epsilon;", 0x3B5, 1, r, "exist;");
    r := Next("ensp;", 0x2002, 1, r, "exist;");
    r := Next("emsp;", 0x2003, 1, r, "exist;");
    r := Next("empty;", 0x2205, 2, r, "exist;");
    r := Next("egrave;", 0xE8, 1, r, "exist;");
    RunAscends(RUN9, "exist;");
  }

  lemma Run10()
    ensures RUN10.Row? && Ascending(RUN10)
  {
    hide Run;
    var r := Last("harr;", 0x2194);
    r := Next("hArr;", 0x21D4, 1, r, "harr;");
    r := Next("gt;", 0x3E, 0, r, "harr;");
    r := Next("ge;", 0x2265, 1, r, "harr;");
    r := Next("gamma;", 0x3B3, 1, r, "harr;");
    r := Next("frasl;", 0x2044, 0, r, "harr;");
    r := Next("frac34;", 0xBE, 3, r, "harr;");
    r := Next("frac14;", 0xBC, 4, r, "harr;");
    r := Next("frac12;", 0xBD, 5, r, "harr;");
    r := Next("forall;", 0x2200, 1, r, "harr;");
    r := Next("fnof;", 0x192, 1, r, "harr;");
    RunAscends(RUN10, "harr;");
  }

  lemma Run11()
    ensures RUN11.Row? && Ascending(RUN11)
  {
    hide Run;
    var r := Last("iquest;", 0xBF);
    r := Next("iota;", 0x3B9, 1, r, "iquest;");
    r := Next("int;", 0x222B, 1, r, "iquest;");
    r := Next("infin;", 0x221E, 2, r, "iquest;");
    r := Next("image;", 0x2111, 1, r, "iquest;");
    r := Next("igrave;", 0xEC, 1, r, "iquest;");
    r := Next("iexcl;", 0xA1, 1, r, "iquest;");
    r := Next("icirc;", 0xEE, 1, r, "iquest;");
    r := Next("iacute;", 0xED, 1, r, "iquest;");
    r := Next("hellip;", 0x2026, 0, r, "iquest;");
    r := Next("hearts;", 0x2665, 2, r, "iquest;");
    RunAscends(RUN11, "iquest;");
  }

  lemma Run12()
    ensures RUN12.Row? && Ascending(RUN12)
  {
    hide Run;
    var r := Last("le;", 0x2264);
    r := Next("ldquo;", 0x201C, 1, r, "le;");
    r := Next("lceil;", 0x2308, 1, r, "le;");
    r := Next("larr;", 0x2190, 1, r, "le;");
    r := Next("laquo;", 0xAB, 2, r, "le;");
    r := Next("lang;", 0x3008, 2, r, "le;");
    r := Next("lambda;", 0x3BB, 2, r, "le;");
    r := Next("lArr;", 0x21D0, 1, r, "le;");
    r := Next("kappa;", 0x3BA, 0, r, "le;");
    r := Next("iuml;", 0xEF, 0, r, "le;");
    r := Next("isin;", 0x2208, 1, r, "le;");
    RunAscends(RUN12, "le;");
  }

  lemma Run13()
    ensures RUN13.Row? && Ascending(RUN13)
  {
    hide Run;
    var r := Last("middot;", 0xB7);
    r := Next("micro;", 0xB5, 2, r, "middot;");
    r := Next("mdash;", 0x2014, 1, r, "middot;");
    r := Next("macr;", 0xAF, 1, r, "middot;");
    r := Next("lt;", 0x3C, 0, r, "middot;");
    r := Next("lsquo;", 0x2018, 1, r, "middot;");
    r := Next("lsaquo;", 0x2039, 2, r, "middot;");
    r := Next("lrm;", 0x200E, 1, r, "middot;");
    r := Next("loz;", 0x25CA, 1, r, "middot;");
    r := Next("lowast;", 0x2217, 2, r, "middot;");
    r := Next("lfloor;", 0x230A, 1, r, "middot;");
    RunAscends(RUN13, "middot;");
  }

  lemma Run14()
    ensures RUN14.Row? && Ascending(RUN14)
  {
    hide Run;
    var r := Last("ntilde;", 0xF1);
    r := Next("nsub;", 0x2284, 1, r, "ntilde;");
    r := Next("notin;", 0x2209, 1, r, "ntilde;");
    r := Next("not;", 0xAC, 3, r, "ntilde;");
    r := Next("ni;", 0x220B, 1, r, "ntilde;");
    r := Next("ne;", 0x2260, 1, r, "ntilde;");
    r := Next("ndash;", 0x2013, 1, r, "ntilde;");
    r := Next("nbsp;", 0xA0, 1, r, "ntilde;");
    r := Next("nabla;", 0x2207, 1, r, "ntilde;");
    r := Next("mu;", 0x3BC, 0, r, "ntilde;");
    r := Next("minus;", 0x2212, 1, r, "ntilde;");
    RunAscends(RUN14, "ntilde;");
  }

  lemma Run15()
    ensures RUN15.Row? && Ascending(RUN15)
  {
    hide Run;
    var r := Last("ordf;", 0xAA);
    r := Next("or;", 0x2228, 2, r, "ordf;");
    r := Next("oplus;", 0x2295, 1, r, "ordf;");
    r := Next("omicron;", 0x3BF, 1, r, "ordf;");
    r := Next("omega;", 0x3C9, 2, r, "ordf;");
    r := Next("oline;", 0x203E, 1, r, "ordf;");
    r := Next("ograve;", 0xF2, 1, r, "ordf;");
    r := Next("oelig;", 0x153, 1, r, "ordf;");
    r := Next("ocirc;", 0xF4, 1, r, "ordf;");
    r := Next("oacute;", 0xF3, 1, r, "ordf;");
    r := Next("nu;", 0x3BD, 0, r, "ordf;");
    RunAscends(RUN15, "ordf;");
  }

  lemma Run16()
    ensures RUN16.Row? && Ascending(RUN16)
  {
    hide Run;
    var r := Last("pi;", 0x3C0);
    r := Next("phi;", 0x3C6, 1, r, "pi;");
    r := Next("perp;", 0x22A5, 1, r, "pi;");
    r := Next("permil;", 0x2030, 3, r, "pi;");
    r := Next("part;", 0x2202, 1, r, "pi;");
    r := Next("para;", 0xB6, 3, r, "pi;");
    r := Next("ouml;", 0xF6, 0, r, "pi;");
    r := Next("otimes;", 0x2297, 1, r, "pi;");
    r := Next("otilde;", 0xF5, 3, r, "pi;");
    r := Next("oslash;", 0xF8, 1, r, "pi;");
    r := Next("ordm;", 0xBA, 1, r, "pi;");
    RunAscends(RUN16, "pi;");
  }

  lemma Run17()
    ensures RUN17.Row? && Ascending(RUN17)
  {
    hide Run;
    var r := Last("rang;", 0x3009);
    r := Next("radic;", 0x221A, 2, r, "rang;");
    r := Next("rArr;", 0x21D2, 1, r, "rang;");
    r := Next("quot;", 0x22, 0, r, "rang;");
    r := Next("psi;", 0x3C8, 0, r, "rang;");
    r := Next("prop;", 0x221D, 1, r, "rang;");
    r := Next("prod;", 0x220F, 3, r, "rang;");
    r := Next("prime;", 0x2032, 2, r, "rang;");
    r := Next("pound;", 0xA3, 1, r, "rang;");
    r := Next("plusmn;", 0xB1, 1, r, "rang;");
    r := Next("piv;", 0x3D6, 1, r, "rang;");
    RunAscends(RUN17, "rang;");
  }

  lemma Run18()
    ensures RUN18.Row? && Ascending(RUN18)
  {
    hide Run;
    var r := Last("rsquo;", 0x2019);
    r := Next("rsaquo;", 0x203A, 2, r, "rsquo;");
    r := Next("rlm;", 0x200F, 1, r, "rsquo;");
    r := Next("rho;", 0x3C1, 1, r, "rsquo;");
    r := Next("rfloor;", 0x230B, 1, r, "rsquo;");
    r := Next("reg;", 0xAE, 1, r, "rsquo;");
    r := Next("real;", 0x211C, 2, r, "rsquo;");
    r := Next("rdquo;", 0x201D, 1, r, "rsquo;");
    r := Next("rceil;", 0x2309, 1, r, "rsquo;");
    r := Next("rarr;", 0x2192, 1, r, "rsquo;");
    r := Next("raquo;", 0xBB, 2, r, "rsquo;");
    RunAscends(RUN18, "rsquo;");
  }

  lemma Run19()
    ensures RUN19.Row? && Ascending(RUN19)
  {
    hide Run;
    var r := Last("sube;", 0x2286);
    r := Next("sub;", 0x2282, 3, r, "sube;");
    r := Next("spades;", 0x2660, 1, r, "sube;");
    r := Next("sim;", 0x223C, 1, r, "sube;");
    r := Next("sigmaf;", 0x3C2, 2, r, "sube;");
    r := Next("sigma;", 0x3C3, 5, r, "sube;");
    r := Next("shy;", 0xAD, 1, r, "sube;");
    r := Next("sect;", 0xA7, 1, r, "sube;");
    r := Next("sdot;", 0x22C5, 1, r, "sube;");
    r := Next("scaron;", 0x161, 1, r, "sube;");
    r := Next("sbquo;", 0x201A, 1, r, "sube;");
    RunAscends(RUN19, "sube;");
  }

  lemma Run20()
    ensures RUN20.Row? && Ascending(RUN20)
  {
    hide Run;
    var r := Last("thetasym;", 0x3D1);
    r := Next("theta;", 0x3B8, 5, r, "thetasym;");
    r := Next("there4;", 0x2234, 3, r, "thetasym;");
    r := Next("tau;", 0x3C4, 1, r, "thetasym;");
    r := Next("szlig;", 0xDF, 0, r, "thetasym;");
    r := Next("supe;", 0x2287, 1, r, "thetasym;");
    r := Next("sup;", 0x2283, 3, r, "thetasym;");
    r := Next("sup3;", 0xB3, 3, r, "thetasym;");
    r := Next("sup2;", 0xB2, 3, r, "thetasym;");
    r := Next("sup1;", 0xB9, 3, r, "thetasym;");
    r := Next("sum;", 0x2211, 2, r, "thetasym;");
    RunAscends(RUN20, "thetasym;");
  }

  lemma Run21()
    ensures RUN21.Row? && Ascending(RUN21)
  {
    hide Run;
    var r := Last("uml;", 0xA8);
    r := Next("ugrave;", 0xF9, 1, r, "uml;");
    r := Next("ucirc;", 0xFB, 1, r, "uml;");
    r := Next("uarr;", 0x2191, 1, r, "uml;");
    r := Next("uacute;", 0xFA, 2, r, "uml;");
    r := Next("uArr;", 0x21D1, 1, r, "uml;");
    r := Next("trade;", 0x2122, 0, r, "uml;");
    r := Next("times;", 0xD7, 1, r, "uml;");
    r := Next("tilde;", 0x2DC, 2, r, "uml;");
    r := Next("thorn;", 0xFE, 1, r, "uml;");
    r := Next("thinsp;", 0x2009, 2, r, "uml;");
    RunAscends(RUN21, "uml;");
  }

  lemma Run22()
    ensures RUN22.Row? && Ascending(RUN22)
  {
    hide Run;
    var r := Last("zwnj;", 0x200C);
    r := Next("zwj;", 0x200D, 2, r, "zwnj;");
    r := Next("zeta;", 0x3B6, 1, r, "zwnj;");
    r := Next("yuml;", 0xFF, 0, r, "zwnj;");
    r := Next("yen;", 0xA5, 1, r, "zwnj;");
    r := Next("yacute;", 0xFD, 1, r, "zwnj;");
    r := Next("xi;", 0x3BE, 0, r, "zwnj;");
    r := Next("weierp;", 0x2118, 0, r, "zwnj;");
    r := Next("uuml;", 0xFC, 0, r, "zwnj;");
    r := Next("upsilon;", 0x3C5, 1, r, "zwnj;");
    r := Next("upsih;", 0x3D2, 4, r, "zwnj;");
    RunAscends(RUN22, "zwnj;");
  }

  lemma Seam0()
    ensures Less(LastKey(RUN0), RUN1.key)
  {
    assert LastKey(RUN0) == LastKey(RUN0.rest.rest.rest.rest.rest.rest.rest.rest.rest.rest);
    DiffersAtIsLess("Chi;", "Dagger;", 0);
  }

  lemma Seam1()
    ensures Less(LastKey(RUN1), RUN2.key)
  {
    assert LastKey(RUN1) == LastKey(RUN1.rest.rest.rest.rest.rest.rest.rest.rest.rest.rest);
    DiffersAtIsLess("Iacute;", "Icirc;", 1);
  }

  lemma Seam2()
    ensures Less(LastKey(RUN2), RUN3.key)
  {
    assert LastKey(RUN2) == LastKey(RUN2.rest.rest.rest.rest.rest.rest.rest.rest.rest.rest);
    DiffersAtIsLess("Oacute;", "Ocirc;", 1);
  }

  lemma Seam3()
    ensures Less(LastKey(RUN3), RUN4.key)
  {
    assert LastKey(RUN3) == LastKey(RUN3.rest.rest.rest.rest.rest.rest.rest.rest.rest.rest);
    DiffersAtIsLess("Psi;", "Rho;", 0);
  }

  lemma Seam4()
    ensures Less(LastKey(RUN4), RUN5.key)
  {
    assert LastKey(RUN4) == LastKey(RUN4.rest.rest.rest.rest.rest.rest.rest.rest.rest.rest);
    DiffersAtIsLess("Uuml;", "Xi;", 0);
  }

  lemma Seam5()
    ensures Less(LastKey(RUN5), RUN6.key)
  {
    assert LastKey(RUN5) == LastKey(RUN5.rest.rest.rest.rest.rest.rest.rest.rest.rest.rest);
    DiffersAtIsLess("alpha;", "amp;", 1);
  }

  lemma Seam6()
    ensures Less(LastKey(RUN6), RUN7.key)
  {
    assert LastKey(RUN6) == LastKey(RUN6.rest.rest.rest.rest.rest.rest.rest.rest.rest.rest);
    DiffersAtIsLess("brvbar;", "bull;", 1);
  }

  lemma Seam7()
    ensures Less(LastKey(RUN7), RUN8.key)
  {
    assert LastKey(RUN7) == LastKey(RUN7.rest.rest.rest.rest.rest.rest.rest.rest.rest.rest);
    DiffersAtIsLess("crarr;", "cup;", 1);
  }

  lemma Seam8()
    ensures Less(LastKey(RUN8), RUN9.key)
  {
    assert LastKey(RUN8) == LastKey(RUN8.rest.rest.rest.rest.rest.rest.rest.rest.rest.rest);
    DiffersAtIsLess("ecirc;", "egrave;", 1);
  }

  lemma Seam9()
    ensures Less(LastKey(RUN9), RUN10.key)
  {
    assert LastKey(RUN9) == LastKey(RUN9.rest.rest.rest.rest.rest.rest.rest.rest.rest.rest);
    DiffersAtIsLess("exist;", "fnof;", 0);
  }

  lemma Seam10()
    ensures Less(LastKey(RUN10), RUN11.key)
  {
    assert LastKey(RUN10) == LastKey(RUN10.rest.rest.rest.rest.rest.rest.rest.rest.rest.rest);
    DiffersAtIsLess("harr;", "hearts;", 1);
  }

  lemma Seam11()
    ensures Less(LastKey(RUN11), RUN12.key)
  {
    assert LastKey(RUN11) == LastKey(RUN11.rest.rest.rest.rest.rest.rest.rest.rest.rest.rest);
    DiffersAtIsLess("iquest;", "isin;", 1);
  }

  lemma Seam12()
    ensures Less(LastKey(RUN12), RUN13.key)
  {
    assert LastKey(RUN12) == LastKey(RUN12.rest.rest.rest.rest.rest.rest.rest.rest.rest.rest);
    DiffersAtIsLess("le;", "lfloor;", 1);
  }

  lemma Seam13()
    ensures Less(LastKey(RUN13), RUN14.key)
  {
    assert LastKey(RUN13) == LastKey(RUN13.rest.rest.rest.rest.rest.rest.rest.rest.rest.rest);
    DiffersAtIsLess("middot;", "minus;", 2);
  }

  lemma Seam14()
    ensures Less(LastKey(RUN14), RUN15.key)
  {
    assert LastKey(RUN14) == LastKey(RUN14.rest.rest.rest.rest.rest.rest.rest.rest.rest.rest);
    DiffersAtIsLess("ntilde;", "nu;", 1);
  }

  lemma Seam15()
    ensures Less(LastKey(RUN15), RUN16.key)
  {
    assert LastKey(RUN15) == LastKey(RUN15.rest.rest.rest.rest.rest.rest.rest.rest.rest.rest);
    DiffersAtIsLess("ordf;", "ordm;", 3);
  }

  lemma Seam16()
    ensures Less(LastKey(RUN16), RUN17.key)
  {
    assert LastKey(RUN16) == LastKey(RUN16.rest.rest.rest.rest.rest.rest.rest.rest.rest.rest);
    DiffersAtIsLess("pi;", "piv;", 2);
  }

  lemma Seam17()
    ensures Less(LastKey(RUN17), RUN18.key)
  {
    assert LastKey(RUN17) == LastKey(RUN17.rest.rest.rest.rest.rest.rest.rest.rest.rest.rest);
    DiffersAtIsLess("rang;", "raquo;", 2);
  }

  lemma Seam18()
    ensures Less(LastKey(RUN18), RUN19.key)
  {
    assert LastKey(RUN18) == LastKey(RUN18.rest.rest.rest.rest.rest.rest.rest.rest.rest.rest);
    DiffersAtIsLess("rsquo;", "sbquo;", 0);
  }

  lemma Seam19()
    ensures Less(LastKey(RUN19), RUN20.key)
  {
    assert LastKey(RUN19) == LastKey(RUN19.rest.rest.rest.rest.rest.rest.rest.rest.rest.rest);
    DiffersAtIsLess("sube;", "sum;", 2);
  }

  lemma Seam20()
    ensures Less(LastKey(RUN20), RUN21.key)
  {
    assert LastKey(RUN20) == LastKey(RUN20.rest.rest.rest.rest.rest.rest.rest.rest.rest.rest);
    DiffersAtIsLess("thetasym;", "thinsp;", 2);
  }

  lemma Seam21()
    ensures Less(LastKey(RUN21), RUN22.key)
  {
    assert LastKey(RUN21) == LastKey(RUN21.rest.rest.rest.rest.rest.rest.rest.rest.rest.rest);
    DiffersAtIsLess("uml;", "upsih;", 1);
  }

  lemma From22()
    ensures Linked(FROM22)
  {
    Run22();
  }

  lemma From21()
    ensures Linked(FROM21)
  {
    Run21(); Seam21(); From22();
  }

  lemma From20()
    ensures Linked(FROM20)
  {
    Run20(); Seam20(); From21();
  }

  lemma From19()
    ensures Linked(FROM19)
  {
    Run19(); Seam19(); From20();
  }

  lemma From18()
    ensures Linked(FROM18)
  {
    Run18(); Seam18(); From19();
  }

  lemma From17()
    ensures Linked(FROM17)
  {
    Run17(); Seam17(); From18();
  }

  lemma From16()
    ensures Linked(FROM16)
  {
    Run16(); Seam16(); From17();
  }

  lemma From15()
    ensures Linked(FROM15)
  {
    Run15(); Seam15(); From16();
  }

  lemma From14()
    ensures Linked(FROM14)
  {
    Run14(); Seam14(); From15();
  }

  lemma From13()
    ensures Linked(FROM13)
  {
    Run13(); Seam13(); From14();
  }

  lemma From12()
    ensures Linked(FROM12)
  {
    Run12(); Seam12(); From13();
  }

  lemma From11()
    ensures Linked(FROM11)
  {
    Run11(); Seam11(); From12();
  }

  lemma From10()
    ensures Linked(FROM10)
  {
    Run10(); Seam10(); From11();
  }

  lemma From9()
    ensures Linked(FROM9)
  {
    Run9(); Seam9(); From10();
  }

  lemma From8()
    ensures Linked(FROM8)
  {
    Run8(); Seam8(); From9();
  }

  lemma From7()
    ensures Linked(FROM7)
  {
    Run7(); Seam7(); From8();
  }

  lemma From6()
    ensures Linked(FROM6)
  {
    Run6(); Seam6(); From7();
  }

  lemma From5()
    ensures Linked(FROM5)
  {
    Run5(); Seam5(); From6();
  }

  lemma From4()
    ensures Linked(FROM4)
  {
    Run4(); Seam4(); From5();
  }

  lemma From3()
    ensures Linked(FROM3)
  {
    Run3(); Seam3(); From4();
  }

  lemma From2()
    ensures Linked(FROM2)
  {
    Run2(); Seam2(); From3();
  }

  lemma From1()
    ensures Linked(FROM1)
  {
    Run1(); Seam1(); From2();
  }

  lemma From0()
    ensures Linked(FROM0)
  {
    Run0(); Seam0(); From1();
  }

  /** The table of the source meets every condition the general theorems ask of a table. */
  lemma NamedEntitiesValid()
    ensures ValidTable(NAMED_ENTITIES)
  {
    From0();
    LinkedIsValid(FROM0);
  }

  lemma AmpInRun()
    ensures Named("amp;", '&' as nat) in ToTable(RUN6)
  {
    RowInTable(RUN6, RUN6, 0);
  }

  lemma LtInRun()
    ensures Named("lt;", '<' as nat) in ToTable(RUN13)
  {
    RowInTable(RUN13.rest.rest.rest.rest.rest.rest, RUN13, 6);
  }

  lemma GtInRun()
    ensures Named("gt;", '>' as nat) in ToTable(RUN10)
  {
    RowInTable(RUN10.rest.rest.rest.rest.rest.rest.rest.rest, RUN10, 8);
  }

  /** The three entities the page's escaping uses are in the table. */
  lemma NamedEntitiesEscapes()
    ensures Named("amp;", '&' as nat) in NAMED_ENTITIES
    ensures Named("lt;", '<' as nat) in NAMED_ENTITIES
    ensures Named("gt;", '>' as nat) in NAMED_ENTITIES
  {
    hide ToTable, Flatten;
    AmpInRun(); GtInRun(); LtInRun();
    KeepRows(FROM13); KeepRows(FROM12); KeepRows(FROM11); KeepRows(FROM10); KeepRows(FROM9);
    KeepRows(FROM8); KeepRows(FROM7); KeepRows(FROM6); KeepRows(FROM5); KeepRows(FROM4);
    KeepRows(FROM3); KeepRows(FROM2); KeepRows(FROM1); KeepRows(FROM0);
  }
}
