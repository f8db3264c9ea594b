/**
 * Field normalisation (padronizar_texto) as both applications write it:
 * app_aprimorado.py (SQLite) and app.py (Excel). The two differ in the names
 * of their identifier columns and in control flow, not in the rule.
 */
module Padronizar {
  import opened Wrappers
  import opened PyText

  const TELEFONE: string := "Telefone"

  /** Identifier columns of the SQLite application, upper-cased on input. */
  const ID_COLUMNS_SQLITE: seq<string> := ["Codigo Produto", "Id Vendedor", "Codigo Venda"]

  /** Identifier columns of the Excel application, upper-cased on input. */
  const ID_COLUMNS_EXCEL: seq<string> := ["ID do Vendedor", "Código do Produto", "Código de Venda"]

  /** At most this many digits of a phone number are kept. */
  const MAX_PHONE_DIGITS: nat := 11

  /** Python's s[:n]. */
  function Prefix(s: string, n: nat): (r: string)
    ensures |r| == if |s| <= n then |s| else n
    ensures r == s[..|r|]
  {
    if |s| <= n then s else s[..n]
  }

  /** `r` has the layout of `mask`: a digit wherever the mask has '#', the mask's own character elsewhere. */
  predicate FitsMask(r: string, mask: string)
  {
    |r| == |mask| && forall i :: 0 <= i < |r| ==> if mask[i] == '#' then IsDigit(r[i]) else r[i] == mask[i]
  }

  const MOBILE_MASK: string := "(##) #####-####"
  const LANDLINE_MASK: string := "(##) ####-####"

  /** The digits of a phone entry that survive: the first eleven. */
  function PhoneDigits(val: string): (nums: string)
    ensures |nums| <= MAX_PHONE_DIGITS && AllDigits(nums)
  {
    Prefix(OnlyDigits(val), MAX_PHONE_DIGITS)
  }

  /** "(" + area + ") " + first + "-" + last: the layout of a formatted phone number. */
  function Layout(area: string, first: string, last: string): string
  {
    "(" + area + ") " + first + "-" + last
  }

  /** The Telefone branch of padronizar_texto. */
  function FormatarTelefone(val: string): (r: string)
  {
    var nums := PhoneDigits(val);
    if |nums| == 11 then Layout(nums[..2], nums[2..7], nums[7..])
    else if |nums| == 10 then Layout(nums[..2], nums[2..6], nums[6..])
    else nums
  }

  /** The layout adds punctuation only: its digits are those of the three parts. */
  lemma LayoutDigits(area: string, first: string, last: string)
    requires AllDigits(area) && AllDigits(first) && AllDigits(last)
    ensures OnlyDigits(Layout(area, first, last)) == area + first + last
  {
    var s1 := "(" + area;
    assert OnlyDigits(s1) == area by { OnlyDigitsAppend("(", area); }
    var s2 := s1 + ") ";
    assert OnlyDigits(s2) == area by { OnlyDigitsAppend(s1, ") "); }
    var s3 := s2 + first;
    assert OnlyDigits(s3) == area + first by { OnlyDigitsAppend(s2, first); }
    var s4 := s3 + "-";
    assert OnlyDigits(s4) == area + first by { OnlyDigitsAppend(s3, "-"); }
    assert Layout(area, first, last) == s4 + last;
    assert OnlyDigits(s4 + last) == area + first + last by { OnlyDigitsAppend(s4, last); }
  }

  /** A two-digit area code, then `first` and a four-digit `last` fill the matching mask. */
  lemma LayoutFitsMask(area: string, first: string, last: string)
    requires AllDigits(area) && AllDigits(first) && AllDigits(last)
    requires |area| == 2 && (|first| == 5 || |first| == 4) && |last| == 4
    ensures FitsMask(Layout(area, first, last), if |first| == 5 then MOBILE_MASK else LANDLINE_MASK)
  {
    var r := Layout(area, first, last);
    var mask := if |first| == 5 then MOBILE_MASK else LANDLINE_MASK;
    var n := |first|;
    assert |r| == |mask| == 10 + n;
    assert r[0] == '(' && r[3] == ')' && r[4] == ' ' && r[5 + n] == '-';
    assert forall i :: 1 <= i < 3 ==> r[i] == area[i - 1];
    assert forall i :: 5 <= i < 5 + n ==> r[i] == first[i - 5];
    assert forall i :: 6 + n <= i < 10 + n ==> r[i] == last[i - 6 - n];
    assert mask[0] == '(' && mask[3] == ')' && mask[4] == ' ' && mask[5 + n] == '-';
    assert forall i :: 1 <= i < 3 || 5 <= i < 5 + n || 6 + n <= i < 10 + n ==> mask[i] == '#';
  }

  /**
   * What the phone rule promises: no digit is lost or invented beyond the cap
   * of eleven, eleven digits take the mobile layout "(DD) DDDDD-DDDD", ten the
   * landline layout "(DD) DDDD-DDDD", and any other count is left as the bare
   * digit string.
   */
  lemma FormatarTelefoneCorreto(val: string)
    ensures var nums, r := PhoneDigits(val), FormatarTelefone(val);
      && OnlyDigits(r) == nums
      && (|nums| == 11 ==> FitsMask(r, MOBILE_MASK))
      && (|nums| == 10 ==> FitsMask(r, LANDLINE_MASK))
      && (|nums| < 10 ==> r == nums)
  {
    var nums := PhoneDigits(val);
    if |nums| == 11 || |nums| == 10 {
      var k := |nums| - 4;
      var area, first, last := nums[..2], nums[2..k], nums[k..];
      assert area + first + last == nums;
      LayoutDigits(area, first, last);
      LayoutFitsMask(area, first, last);
    }
  }

  /** A formatted phone number has no surrounding whitespace. */
  lemma FormatarTelefoneStripped(val: string)
    ensures Stripped(FormatarTelefone(val))
  {
    var nums := PhoneDigits(val);
    if |nums| == 11 || |nums| == 10 {
      FormatarTelefoneCorreto(val);
    }
  }

  /** Formatting a formatted phone number changes nothing. */
  lemma FormatarTelefoneIdempotente(val: string)
    ensures FormatarTelefone(FormatarTelefone(val)) == FormatarTelefone(val)
  {
    FormatarTelefoneCorreto(val);
    var r := FormatarTelefone(val);
    assert PhoneDigits(r) == PhoneDigits(val);
  }

  /** "11987654321" becomes "(11) 98765-4321". */
  lemma FormatarTelefoneCelular(val: string)
    requires val == "11987654321"
    ensures FormatarTelefone(val) == "(11) 98765-4321"
  {
    assert PhoneDigits(val) == val by { assert AllDigits(val); }
    assert val[..2] == "11" && val[2..7] == "98765" && val[7..] == "4321";
    assert Layout("11", "98765", "4321") == "(11) 98765-4321";
  }

  /** "1122223333" becomes "(11) 2222-3333". */
  lemma FormatarTelefoneFixo(val: string)
    requires val == "1122223333"
    ensures FormatarTelefone(val) == "(11) 2222-3333"
  {
    assert PhoneDigits(val) == val by { assert AllDigits(val); }
    assert val[..2] == "11" && val[2..6] == "2222" && val[6..] == "3333";
    assert Layout("11", "2222", "3333") == "(11) 2222-3333";
  }

  // ---------------------------------------------------------------------------
  // padronizar_texto
  // ---------------------------------------------------------------------------

  /**
   * padronizar_texto of the SQLite application: None becomes "", every other
   * value is stripped, identifier columns are upper-cased, Telefone is
   * reformatted. The result never carries surrounding whitespace, and an
   * identifier never holds a character that upper() would still change.
   */
  function PadronizarSqlite(col: string, valor: Option<string>): (r: string)
    ensures Stripped(r)
    ensures valor.None? ==> r == ""
    ensures col in ID_COLUMNS_SQLITE ==> forall i :: 0 <= i < |r| ==> UpperChar(r[i]) == r[i]
    ensures valor.Some? && col in ID_COLUMNS_SQLITE ==> r == Upper(Strip(valor.value))
    ensures valor.Some? && col !in ID_COLUMNS_SQLITE && col != TELEFONE ==> r == Strip(valor.value)
  {
    TelefoneNaoEIdentificador();
    match valor
    case None => ""
    case Some(v) =>
      var val := Strip(v);
      if col in ID_COLUMNS_SQLITE then UpperStripped(val); Upper(val)
      else if col == TELEFONE then FormatarTelefoneStripped(val); FormatarTelefone(val)
      else val
  }

  /**
   * padronizar_texto of the Excel application: the same rule, written as a
   * sequence of reassignments of `val` instead of early returns.
   */
  function PadronizarExcel(col: string, valor: Option<string>): (r: string)
    ensures Stripped(r)
    ensures valor.None? ==> r == ""
    ensures col in ID_COLUMNS_EXCEL ==> forall i :: 0 <= i < |r| ==> UpperChar(r[i]) == r[i]
    ensures valor.Some? && col in ID_COLUMNS_EXCEL ==> r == Upper(Strip(valor.value))
    ensures valor.Some? && col !in ID_COLUMNS_EXCEL && col != TELEFONE ==> r == Strip(valor.value)
  {
    TelefoneNaoEIdentificador();
    match valor
    case None => ""
    case Some(v) =>
      var val := Strip(v);
      var val := if col in ID_COLUMNS_EXCEL then UpperStripped(val); Upper(val) else val;
      if col == TELEFONE then FormatarTelefoneStripped(val); FormatarTelefone(val)
      else val
  }

  /** No identifier column is called Telefone, in either application. */
  lemma TelefoneNaoEIdentificador()
    ensures TELEFONE !in ID_COLUMNS_SQLITE && TELEFONE !in ID_COLUMNS_EXCEL
  {
  }

  /** Stripping never removes a digit. */
  lemma OnlyDigitsIgnoresStrip(valor: string)
    ensures OnlyDigits(Strip(valor)) == OnlyDigits(valor)
  {
    StripIsSlice(valor);
    var i, t := StripStart(valor), Strip(valor);
    var antes, depois := valor[..i], valor[i + |t|..];
    assert valor == antes + t + depois by {
      assert valor == valor[..i] + valor[i..i + |t|] + valor[i + |t|..];
    }
    OnlyDigitsBetweenSpaces(antes, t, depois);
  }

  /** Whitespace around a value contributes no digits. */
  lemma OnlyDigitsBetweenSpaces(antes: string, t: string, depois: string)
    requires AllSpace(antes) && AllSpace(depois)
    ensures OnlyDigits(antes + t + depois) == OnlyDigits(t)
  {
    NoDigitsInSpace(antes);
    NoDigitsInSpace(depois);
    OnlyDigitsAppend(antes + t, depois);
    OnlyDigitsAppend(antes, t);
    assert [] + OnlyDigits(t) + [] == OnlyDigits(t);
  }

  /** Both applications store in Telefone exactly the formatted phone number of the raw entry. */
  lemma TelefoneNasDuasApps(valor: string)
    ensures PadronizarSqlite(TELEFONE, Some(valor)) == FormatarTelefone(valor)
    ensures PadronizarExcel(TELEFONE, Some(valor)) == FormatarTelefone(valor)
  {
    TelefoneNaoEIdentificador();
    OnlyDigitsIgnoresStrip(valor);
    assert PhoneDigits(Strip(valor)) == PhoneDigits(valor);
  }

  lemma {:induction false} NoDigitsInSpace(s: string)
    requires AllSpace(s)
    ensures OnlyDigits(s) == []
  {
    if s != [] {
      NoDigitsInSpace(s[1..]);
    }
  }

  /** Normalising an already normalised value returns it unchanged (SQLite application). */
  lemma PadronizarSqliteIdempotente(col: string, valor: Option<string>)
    ensures PadronizarSqlite(col, Some(PadronizarSqlite(col, valor))) == PadronizarSqlite(col, valor)
  {
    var r := PadronizarSqlite(col, valor);
    assert Strip(r) == r;
    if valor.Some? {
      var val := Strip(valor.value);
      StripIdempotent(valor.value);
      if col in ID_COLUMNS_SQLITE {
        UpperIdempotent(val);
      } else if col == TELEFONE {
        FormatarTelefoneIdempotente(val);
      }
    } else {
      assert OnlyDigits("") == "";
    }
  }

  /** Normalising an already normalised value returns it unchanged (Excel application). */
  lemma PadronizarExcelIdempotente(col: string, valor: Option<string>)
    ensures PadronizarExcel(col, Some(PadronizarExcel(col, valor))) == PadronizarExcel(col, valor)
  {
    var r := PadronizarExcel(col, valor);
    assert Strip(r) == r;
    TelefoneNaoEIdentificador();
    if valor.Some? {
      var val := Strip(valor.value);
      StripIdempotent(valor.value);
      if col in ID_COLUMNS_EXCEL {
        UpperIdempotent(val);
      } else if col == TELEFONE {
        FormatarTelefoneIdempotente(val);
      }
    } else {
      assert OnlyDigits("") == "";
    }
  }

  /**
   * The two applications apply one rule: corresponding identifier columns are
   * treated alike, and every other column name is treated alike.
   */
  lemma MesmaRegraNasDuasApps(valor: Option<string>, col: string)
    ensures PadronizarSqlite("Codigo Produto", valor) == PadronizarExcel("Código do Produto", valor)
    ensures PadronizarSqlite("Id Vendedor", valor) == PadronizarExcel("ID do Vendedor", valor)
    ensures PadronizarSqlite("Codigo Venda", valor) == PadronizarExcel("Código de Venda", valor)
    ensures col !in ID_COLUMNS_SQLITE && col !in ID_COLUMNS_EXCEL ==>
              PadronizarSqlite(col, valor) == PadronizarExcel(col, valor)
  {
    TelefoneNaoEIdentificador();
  }
}
