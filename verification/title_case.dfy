/**
  The normalisation the dashboard applies at load time: `str.title()` on the
  programme and university name columns, on ASCII letters. A letter that
  starts a word (it comes first, or follows a character that is not a letter)
  is upper-cased; every other letter is lower-cased; anything else is kept.
 */
module TitleCase {
  import opened Admissions

  predicate IsUpper(c: char)
  {
    'A' <= c <= 'Z'
  }

  predicate IsLower(c: char)
  {
    'a' <= c <= 'z'
  }

  predicate IsLetter(c: char)
  {
    IsUpper(c) || IsLower(c)
  }

  function ToUpper(c: char): char
  {
    if IsLower(c) then (c as int - 32) as char else c
  }

  function ToLower(c: char): char
  {
    if IsUpper(c) then (c as int + 32) as char else c
  }

  /** Title-cases `s`, where `afterLetter` says whether the character before `s` was a letter. */
  function TitleFrom(s: string, afterLetter: bool): (r: string)
    ensures |r| == |s|
  {
    if s == [] then []
    else
      var c := if !IsLetter(s[0]) then s[0] else if afterLetter then ToLower(s[0]) else ToUpper(s[0]);
      [c] + TitleFrom(s[1..], IsLetter(s[0]))
  }

  /** `s.title()`. */
  function Title(s: string): string
  {
    TitleFrom(s, false)
  }

  /** Position `i` of `s` starts a word. */
  predicate StartsWord(s: string, i: nat)
    requires i < |s|
  {
    i == 0 || !IsLetter(s[i - 1])
  }

  /** The character `str.title()` puts at position `i`. */
  function TitledAt(s: string, i: nat): char
    requires i < |s|
  {
    if !IsLetter(s[i]) then s[i]
    else if StartsWord(s, i) then ToUpper(s[i])
    else ToLower(s[i])
  }

  lemma {:induction false} TitleFromAt(s: string, afterLetter: bool, i: nat)
    requires i < |s|
    ensures TitleFrom(s, afterLetter)[i] ==
      if !IsLetter(s[i]) then s[i]
      else if (if i == 0 then !afterLetter else !IsLetter(s[i - 1])) then ToUpper(s[i])
      else ToLower(s[i])
  {
    if i > 0 {
      TitleFromAt(s[1..], IsLetter(s[0]), i - 1);
    }
  }

  /**
    Title-casing keeps the length, upper-cases exactly the letters that start
    a word, lower-cases the other letters and keeps everything else.
   */
  lemma TitleSpec(s: string)
    ensures |Title(s)| == |s|
    ensures forall i :: 0 <= i < |s| ==> Title(s)[i] == TitledAt(s, i)
  {
    forall i | 0 <= i < |s| ensures Title(s)[i] == TitledAt(s, i) {
      TitleFromAt(s, false, i);
    }
  }

  /** Title-casing changes a letter's case only: letters stay letters, others stay put. */
  lemma TitleKeepsLetters(s: string)
    ensures forall i :: 0 <= i < |s| ==> IsLetter(Title(s)[i]) == IsLetter(s[i])
    ensures forall i :: 0 <= i < |s| ==> ToLower(Title(s)[i]) == ToLower(s[i])
  {
    TitleSpec(s);
  }

  /** Title-casing an already title-cased string changes nothing. */
  lemma TitleIdempotent(s: string)
    ensures Title(Title(s)) == Title(s)
  {
    var t := Title(s);
    TitleSpec(s);
    TitleSpec(t);
    forall i | 0 <= i < |t| ensures Title(t)[i] == t[i] {
      if i > 0 {
        assert IsLetter(t[i - 1]) == IsLetter(s[i - 1]);
      }
    }
  }

  /** `data['nama_prodi'] = data['nama_prodi'].str.title()`, then the same for `nama_univ`. */
  function NormaliseNames(rows: seq<Row>): seq<Row>
  {
    seq(|rows|, i requires 0 <= i < |rows| =>
      rows[i].(namaProdi := Title(rows[i].namaProdi), namaUniv := Title(rows[i].namaUniv)))
  }

  /**
    Normalising keeps the row count and every column other than the two name
    columns, and title-cases those two.
   */
  lemma NormaliseNamesSpec(rows: seq<Row>)
    ensures |NormaliseNames(rows)| == |rows|
    ensures forall i :: 0 <= i < |rows| ==>
      var n := NormaliseNames(rows)[i];
      && n.tahun == rows[i].tahun && n.kabupatenKota == rows[i].kabupatenKota
      && n.provinsi == rows[i].provinsi && n.jenjang == rows[i].jenjang
      && n.peminat == rows[i].peminat && n.dayaTampung == rows[i].dayaTampung
      && |n.namaProdi| == |rows[i].namaProdi| && |n.namaUniv| == |rows[i].namaUniv|
      && (forall j :: 0 <= j < |n.namaProdi| ==> n.namaProdi[j] == TitledAt(rows[i].namaProdi, j))
      && (forall j :: 0 <= j < |n.namaUniv| ==> n.namaUniv[j] == TitledAt(rows[i].namaUniv, j))
  {
    var r := NormaliseNames(rows);
    forall i | 0 <= i < |rows|
      ensures |r[i].namaProdi| == |rows[i].namaProdi| && |r[i].namaUniv| == |rows[i].namaUniv|
      ensures forall j :: 0 <= j < |r[i].namaProdi| ==> r[i].namaProdi[j] == TitledAt(rows[i].namaProdi, j)
      ensures forall j :: 0 <= j < |r[i].namaUniv| ==> r[i].namaUniv[j] == TitledAt(rows[i].namaUniv, j)
    {
      TitleSpec(rows[i].namaProdi);
      TitleSpec(rows[i].namaUniv);
    }
  }

  /** Normalising a normalised table changes nothing. */
  lemma NormaliseNamesIdempotent(rows: seq<Row>)
    ensures NormaliseNames(NormaliseNames(rows)) == NormaliseNames(rows)
  {
    var once := NormaliseNames(rows);
    var twice := NormaliseNames(once);
    forall i | 0 <= i < |rows| ensures twice[i] == once[i] {
      TitleIdempotent(rows[i].namaProdi);
      TitleIdempotent(rows[i].namaUniv);
    }
  }
}
