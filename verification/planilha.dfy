/**
 * One sheet of the Excel application (app.py) held in memory as a table of
 * rows: appending a row with its duplicate check (salvar_novo), editing a
 * row cell by cell (salvar_edicao), deleting a row by position (excluir),
 * and the low-stock tag of the list (atualizar_tree_com_estoque).
 */
module Planilha {
  import opened Wrappers
  import opened PyText
  import opened Padronizar
  import opened Validacao

  /** Rows whose "Quantidade" is below this are tagged "baixo". */
  const LOW_STOCK_THRESHOLD: int := 5

  const COLUNAS_INTEIRAS: seq<string> := ["Quantidade", "Qnt. Vendida"]
  const COLUNAS_DECIMAIS: seq<string> := ["Valor de Compra", "Valor de Venda", "Valor de Mercado"]

  /** The columns of the Vendas sheet in the template workbook. */
  const COLUNAS_VENDAS: seq<string> :=
    ["Código de Venda", "Código do Produto", "Nome do Produto", "ID do Vendedor", "Qnt. Vendida"]

  type Linha = seq<Value>

  /** str() of a cell, as df[col].astype(str) shows it. */
  function CellStr(v: Value): string
  {
    match v
    case Texto(s) => s
    case Inteiro(n) => ShowInt(n)
    case Decimal(t) => t
  }

  /** (df[col].astype(str) == val).any() for the column at position j. */
  predicate EmUso(rows: seq<Linha>, j: nat, val: string)
  {
    exists r :: 0 <= r < |rows| && j < |rows[r]| && CellStr(rows[r][j]) == val
  }

  /** No two rows show the same text in column j. */
  ghost predicate SemRepeticao(rows: seq<Linha>, j: nat)
  {
    forall a, b :: 0 <= a < b < |rows| && j < |rows[a]| && j < |rows[b]| ==> CellStr(rows[a][j]) != CellStr(rows[b][j])
  }

  /** Why a write stops: the position of the column and what was wrong with it. */
  datatype ErroPlanilha = JaExiste(coluna: nat) | ValorInvalido(coluna: nat)

  /** The form's entries once normalised by padronizar_texto, column by column. */
  function Entradas(cols: seq<string>, form: seq<string>): (vals: seq<string>)
    requires |form| == |cols|
    ensures |vals| == |cols|
    ensures forall j :: 0 <= j < |cols| ==> vals[j] == PadronizarExcel(cols[j], Some(form[j]))
  {
    seq(|cols|, j requires 0 <= j < |cols| => PadronizarExcel(cols[j], Some(form[j])))
  }

  // ---------------------------------------------------------------------------
  // salvar_novo
  // ---------------------------------------------------------------------------

  /**
   * The cell salvar_novo stores for one column: int(val) for integer
   * columns and float(val) for decimal ones, where an empty entry stands
   * for 0 and 0.0; None is the exception that aborts the save.
   */
  function CelulaNova(col: string, val: string, floatOk: string -> bool): (c: Option<Value>)
    ensures col in COLUNAS_INTEIRAS && val == "" ==> c == Some(Inteiro(0))
    ensures col in COLUNAS_INTEIRAS && val != "" ==> (c.Some? <==> ParseInt(val).Some?)
    ensures col in COLUNAS_INTEIRAS && c.Some? && val != "" ==> c.value == Inteiro(ParseInt(val).value)
    ensures col !in COLUNAS_INTEIRAS && col in COLUNAS_DECIMAIS ==> (c.Some? <==> val == "" || floatOk(val))
    ensures col !in COLUNAS_INTEIRAS && col !in COLUNAS_DECIMAIS ==> c == Some(Texto(val))
  {
    if col in COLUNAS_INTEIRAS then
      if val == "" then Some(Inteiro(0))
      else match ParseInt(val)
        case Some(n) => Some(Inteiro(n))
        case None => None
    else if col in COLUNAS_DECIMAIS then
      if val == "" then Some(Decimal("0.0"))
      else if floatOk(val) then Some(Decimal(val)) else None
    else Some(Texto(val))
  }

  /**
   * One column of salvar_novo: the cell it contributes, or why the row is
   * refused there. A column named in `chaves` whose value is already in use
   * is refused before its conversion is tried.
   */
  function ColunaNova(chaves: seq<string>, col: string, rows: seq<Linha>, j: nat, val: string,
                      floatOk: string -> bool): (r: Result<Value, ErroPlanilha>)
    ensures r.Failure? ==> r.error.coluna == j
    ensures r.Success? <==> !(col in chaves && EmUso(rows, j, val)) && CelulaNova(col, val, floatOk).Some?
  {
    if col in chaves && EmUso(rows, j, val) then Failure(JaExiste(j))
    else
      match CelulaNova(col, val, floatOk)
      case None => Failure(ValorInvalido(j))
      case Some(c) => Success(c)
  }

  /** The combination of an already built prefix with what the rest of the columns give. */
  function Apos(prefixo: Linha, r: Result<Linha, ErroPlanilha>): Result<Linha, ErroPlanilha>
  {
    match r
    case Success(resto) => Success(prefixo + resto)
    case Failure(e) => Failure(e)
  }

  /**
   * salvar_novo from column j on, over the normalised entries `vals`,
   * checking for repeated values the columns named in `chaves`: the cells
   * of the new row, or the first column that stops it.
   */
  function NovaLinhaDesde(chaves: seq<string>, cols: seq<string>, rows: seq<Linha>, vals: seq<string>,
                          floatOk: string -> bool, j: nat): (r: Result<Linha, ErroPlanilha>)
    requires |vals| == |cols| && j <= |cols|
    ensures r.Success? ==> |r.value| == |cols| - j
    ensures r.Failure? ==> j <= r.error.coluna < |cols|
    decreases |cols| - j
  {
    if j == |cols| then Success([])
    else
      match ColunaNova(chaves, cols[j], rows, j, vals[j], floatOk)
      case Failure(e) => Failure(e)
      case Success(c) => Apos([c], NovaLinhaDesde(chaves, cols, rows, vals, floatOk, j + 1))
  }

  /** A row is accepted exactly when every column from j on passes. */
  lemma {:induction false} NovaLinhaAceitaSeESoSe(chaves: seq<string>, cols: seq<string>, rows: seq<Linha>,
                                                  vals: seq<string>, floatOk: string -> bool, j: nat)
    requires |vals| == |cols| && j <= |cols|
    ensures NovaLinhaDesde(chaves, cols, rows, vals, floatOk, j).Success? <==>
      forall i :: j <= i < |cols| ==> ColunaNova(chaves, cols[i], rows, i, vals[i], floatOk).Success?
    decreases |cols| - j
  {
    if j < |cols| {
      NovaLinhaAceitaSeESoSe(chaves, cols, rows, vals, floatOk, j + 1);
    }
  }

  /**
   * An accepted row holds, column by column, the converted entry, and every
   * checked column of it holds a value no row had.
   */
  lemma {:induction false} NovaLinhaDesdeCelulas(chaves: seq<string>, cols: seq<string>, rows: seq<Linha>,
                                                 vals: seq<string>, floatOk: string -> bool, j: nat)
    requires |vals| == |cols| && j <= |cols|
    requires NovaLinhaDesde(chaves, cols, rows, vals, floatOk, j).Success?
    ensures var nova := NovaLinhaDesde(chaves, cols, rows, vals, floatOk, j).value;
      && (forall i :: j <= i < |cols| ==> CelulaNova(cols[i], vals[i], floatOk) == Some(nova[i - j]))
      && (forall i :: j <= i < |cols| && cols[i] in chaves ==> !EmUso(rows, i, vals[i]))
    decreases |cols| - j
  {
    if j < |cols| {
      var c := ColunaNova(chaves, cols[j], rows, j, vals[j], floatOk).value;
      var resto := NovaLinhaDesde(chaves, cols, rows, vals, floatOk, j + 1).value;
      var nova := NovaLinhaDesde(chaves, cols, rows, vals, floatOk, j).value;
      assert nova == [c] + resto;
      assert CelulaNova(cols[j], vals[j], floatOk) == Some(c);
      NovaLinhaDesdeCelulas(chaves, cols, rows, vals, floatOk, j + 1);
      forall i | j <= i < |cols|
        ensures CelulaNova(cols[i], vals[i], floatOk) == Some(nova[i - j])
      {
        if i > j {
          assert nova[i - j] == resto[i - (j + 1)];
        }
      }
    }
  }

  /** A refused row names the first column that does not pass, and why. */
  lemma {:induction false} NovaLinhaRecusada(chaves: seq<string>, cols: seq<string>, rows: seq<Linha>,
                                             vals: seq<string>, floatOk: string -> bool, j: nat)
    requires |vals| == |cols| && j <= |cols|
    requires NovaLinhaDesde(chaves, cols, rows, vals, floatOk, j).Failure?
    ensures var e := NovaLinhaDesde(chaves, cols, rows, vals, floatOk, j).error;
      && ColunaNova(chaves, cols[e.coluna], rows, e.coluna, vals[e.coluna], floatOk) == Failure(e)
      && forall i :: j <= i < e.coluna ==> ColunaNova(chaves, cols[i], rows, i, vals[i], floatOk).Success?
    decreases |cols| - j
  {
    if ColunaNova(chaves, cols[j], rows, j, vals[j], floatOk).Success? {
      NovaLinhaRecusada(chaves, cols, rows, vals, floatOk, j + 1);
    }
  }

  /** One column of salvar_novo that passes: its cell joins the prefix already built. */
  lemma NovaLinhaPasso(chaves: seq<string>, cols: seq<string>, rows: seq<Linha>, vals: seq<string>,
                       floatOk: string -> bool, j: nat, novo: Linha, c: Value)
    requires |vals| == |cols| && j < |cols|
    requires ColunaNova(chaves, cols[j], rows, j, vals[j], floatOk) == Success(c)
    ensures Apos(novo, NovaLinhaDesde(chaves, cols, rows, vals, floatOk, j))
         == Apos(novo + [c], NovaLinhaDesde(chaves, cols, rows, vals, floatOk, j + 1))
  {
    var resto := NovaLinhaDesde(chaves, cols, rows, vals, floatOk, j + 1);
    if resto.Success? {
      assert novo + ([c] + resto.value) == novo + [c] + resto.value;
    }
  }

  /** salvar_novo as app.py writes it: every identifier column of the workbook is checked, on every sheet. */
  function NovaLinha(cols: seq<string>, rows: seq<Linha>, form: seq<string>, floatOk: string -> bool)
    : (r: Result<Linha, ErroPlanilha>)
    requires |form| == |cols|
    ensures r.Success? ==> |r.value| == |cols|
  {
    NovaLinhaDesde(ID_COLUMNS_EXCEL, cols, rows, Entradas(cols, form), floatOk, 0)
  }

  /** salvar_novo with the check it evidently intends: only the sheet's own key, its first column. */
  function NovaLinhaCorrigida(cols: seq<string>, rows: seq<Linha>, form: seq<string>, floatOk: string -> bool)
    : (r: Result<Linha, ErroPlanilha>)
    requires |form| == |cols| && |cols| > 0
    ensures r.Success? ==> |r.value| == |cols|
  {
    NovaLinhaDesde([cols[0]], cols, rows, Entradas(cols, form), floatOk, 0)
  }

  /** Appending a row whose checked column holds a fresh value keeps that column free of repeats. */
  lemma AnexarMantemSemRepeticao(rows: seq<Linha>, nova: Linha, j: nat)
    requires SemRepeticao(rows, j)
    requires j < |nova| && !EmUso(rows, j, CellStr(nova[j]))
    ensures SemRepeticao(rows + [nova], j)
  {
    var todas := rows + [nova];
    forall a, b | 0 <= a < b < |todas| && j < |todas[a]| && j < |todas[b]|
      ensures CellStr(todas[a][j]) != CellStr(todas[b][j])
    {
      if b == |rows| {
        assert todas[a] == rows[a];
      } else {
        assert todas[a] == rows[a] && todas[b] == rows[b];
      }
    }
  }

  /**
   * Under the corrected check the sheet's key stays unique: a row that is
   * added carries a key no row had.
   */
  lemma CorrigidaMantemChaveUnica(cols: seq<string>, rows: seq<Linha>, form: seq<string>, floatOk: string -> bool)
    requires |form| == |cols| && |cols| > 0
    requires cols[0] !in COLUNAS_INTEIRAS && cols[0] !in COLUNAS_DECIMAIS
    requires SemRepeticao(rows, 0)
    requires NovaLinhaCorrigida(cols, rows, form, floatOk).Success?
    ensures SemRepeticao(rows + [NovaLinhaCorrigida(cols, rows, form, floatOk).value], 0)
  {
    var vals := Entradas(cols, form);
    var nova := NovaLinhaCorrigida(cols, rows, form, floatOk).value;
    NovaLinhaDesdeCelulas([cols[0]], cols, rows, vals, floatOk, 0);
    assert CelulaNova(cols[0], vals[0], floatOk) == Some(nova[0]);
    assert CellStr(nova[0]) == vals[0];
    AnexarMantemSemRepeticao(rows, nova, 0);
  }

  /**
   * As written, a new sale is refused as soon as its product already has a
   * sale on the sheet, whatever its own sale code: the product column is
   * checked like a key.
   */
  lemma SegundaVendaDoProdutoRecusada(rows: seq<Linha>, form: seq<string>, floatOk: string -> bool)
    requires |form| == |COLUNAS_VENDAS|
    requires !EmUso(rows, 0, Entradas(COLUNAS_VENDAS, form)[0])
    requires EmUso(rows, 1, Entradas(COLUNAS_VENDAS, form)[1])
    ensures NovaLinha(COLUNAS_VENDAS, rows, form, floatOk) == Failure(JaExiste(1))
  {
    var cols, vals := COLUNAS_VENDAS, Entradas(COLUNAS_VENDAS, form);
    ColunasDeVenda();
    assert cols[1] in ID_COLUMNS_EXCEL;
    var primeira := ColunaNova(ID_COLUMNS_EXCEL, cols[0], rows, 0, vals[0], floatOk);
    assert primeira.Success?;
    assert ColunaNova(ID_COLUMNS_EXCEL, cols[1], rows, 1, vals[1], floatOk) == Failure(JaExiste(1));
    assert NovaLinhaDesde(ID_COLUMNS_EXCEL, cols, rows, vals, floatOk, 1) == Failure(JaExiste(1));
  }

  /** The entries after the sale code of a Vendas row are taken as typed, except the quantity. */
  lemma ColunasDeVenda()
    ensures |COLUNAS_VENDAS| == 5
    ensures COLUNAS_VENDAS[4] in COLUNAS_INTEIRAS
    ensures forall i :: 0 <= i < 4 ==> COLUNAS_VENDAS[i] !in COLUNAS_INTEIRAS && COLUNAS_VENDAS[i] !in COLUNAS_DECIMAIS
    ensures forall i :: 1 <= i < 5 ==> COLUNAS_VENDAS[i] != COLUNAS_VENDAS[0]
  {
    var c := COLUNAS_VENDAS;
    assert c[0] !in COLUNAS_INTEIRAS && c[0] !in COLUNAS_DECIMAIS;
    assert c[1] !in COLUNAS_INTEIRAS && c[1] !in COLUNAS_DECIMAIS;
    assert c[2] !in COLUNAS_INTEIRAS && c[2] !in COLUNAS_DECIMAIS;
    assert c[3] !in COLUNAS_INTEIRAS && c[3] !in COLUNAS_DECIMAIS;
  }

  /**
   * Corrected, a sale with a fresh sale code and a valid quantity is
   * stored, however many sales its product or its seller already has.
   */
  lemma CorrigidaAceitaOutraVendaDoProduto(rows: seq<Linha>, form: seq<string>, floatOk: string -> bool)
    requires |form| == |COLUNAS_VENDAS|
    requires !EmUso(rows, 0, Entradas(COLUNAS_VENDAS, form)[0])
    requires var q := Entradas(COLUNAS_VENDAS, form)[4]; q == "" || ParseInt(q).Some?
    ensures NovaLinhaCorrigida(COLUNAS_VENDAS, rows, form, floatOk).Success?
  {
    var cols, vals := COLUNAS_VENDAS, Entradas(COLUNAS_VENDAS, form);
    var ch := [cols[0]];
    ColunasDeVenda();
    forall i | 0 <= i < |cols|
      ensures ColunaNova(ch, cols[i], rows, i, vals[i], floatOk).Success?
    {
      assert i == 0 || cols[i] !in ch;
    }
    NovaLinhaAceitaSeESoSe(ch, cols, rows, vals, floatOk, 0);
  }

  // ---------------------------------------------------------------------------
  // salvar_edicao
  // ---------------------------------------------------------------------------

  /**
   * The cell salvar_edicao writes: int(val) or float(val) with no default,
   * so an empty entry in a numeric column raises; otherwise the same cell
   * a new row would store.
   */
  function CelulaEditada(col: string, val: string, floatOk: string -> bool): (c: Option<Value>)
    ensures col in COLUNAS_INTEIRAS ==> (c.Some? <==> ParseInt(val).Some?)
    ensures col in COLUNAS_INTEIRAS && ParseInt(val).Some? ==> c == Some(Inteiro(ParseInt(val).value))
    ensures col !in COLUNAS_INTEIRAS && col in COLUNAS_DECIMAIS ==> (c.Some? <==> val != "" && floatOk(val))
    ensures col !in COLUNAS_INTEIRAS && col in COLUNAS_DECIMAIS && c.Some? ==> c.value == Decimal(val)
    ensures col !in COLUNAS_INTEIRAS && col !in COLUNAS_DECIMAIS ==> c == Some(Texto(val))
    ensures val == "" ==> (c.None? <==> col in COLUNAS_INTEIRAS || col in COLUNAS_DECIMAIS)
    ensures val != "" ==> c == CelulaNova(col, val, floatOk)
  {
    ParseIntEmpty();
    if col in COLUNAS_INTEIRAS then
      match ParseInt(val)
      case Some(n) => Some(Inteiro(n))
      case None => None
    else if col in COLUNAS_DECIMAIS then
      if val != "" && floatOk(val) then Some(Decimal(val)) else None
    else Some(Texto(val))
  }

  /**
   * The identifier check of salvar_edicao: the value is refused when some
   * row shows it and the edited row itself does not.
   */
  predicate IdentificadorRecusado(rows: seq<Linha>, idx: nat, j: nat, val: string)
    requires idx < |rows| && j < |rows[idx]|
  {
    EmUso(rows, j, val) && CellStr(rows[idx][j]) != val
  }

  /**
   * The check refuses exactly a value another row holds that the edited row
   * does not: its own current value, or one nobody uses, is accepted.
   */
  lemma IdentificadorNaEdicao(rows: seq<Linha>, idx: nat, j: nat, val: string)
    requires idx < |rows| && j < |rows[idx]|
    ensures IdentificadorRecusado(rows, idx, j, val) <==>
      CellStr(rows[idx][j]) != val && exists r :: 0 <= r < |rows| && r != idx && j < |rows[r]| && CellStr(rows[r][j]) == val
  {
  }

  /**
   * One column of salvar_edicao over the row at position idx: the rows with
   * its cell written, or the rows as they were and why the edit stops.
   */
  function ColunaEditada(chaves: seq<string>, col: string, rows: seq<Linha>, idx: nat, j: nat, val: string,
                         floatOk: string -> bool)
    : (r: (seq<Linha>, Option<ErroPlanilha>))
    requires idx < |rows| && j < |rows[idx]|
    ensures |r.0| == |rows| && |r.0[idx]| == |rows[idx]|
    ensures r.1.Some? ==> r.0 == rows && r.1.value.coluna == j
    ensures r.1.None? <==>
      CelulaEditada(col, val, floatOk).Some? && !(col in chaves && IdentificadorRecusado(rows, idx, j, val))
    ensures r.1 == Some(ValorInvalido(j)) <==> CelulaEditada(col, val, floatOk).None?
    ensures r.1 == Some(JaExiste(j)) <==>
      CelulaEditada(col, val, floatOk).Some? && col in chaves && IdentificadorRecusado(rows, idx, j, val)
  {
    match CelulaEditada(col, val, floatOk)
    case None => (rows, Some(ValorInvalido(j)))
    case Some(c) =>
      if col in chaves && IdentificadorRecusado(rows, idx, j, val) then (rows, Some(JaExiste(j)))
      else (rows[idx := rows[idx][j := c]], None)
  }

  /**
   * salvar_edicao from column j on, over the rows as the earlier columns
   * left them: each column is converted, checked and written before the
   * next is looked at, and the first failure stops the loop with what was
   * already written left in place.
   */
  function EdicaoDesde(chaves: seq<string>, cols: seq<string>, rows: seq<Linha>, idx: nat, vals: seq<string>,
                       floatOk: string -> bool, j: nat): (r: (seq<Linha>, Option<ErroPlanilha>))
    requires |vals| == |cols| && j <= |cols| && idx < |rows| && |rows[idx]| == |cols|
    ensures |r.0| == |rows| && |r.0[idx]| == |cols|
    ensures r.1.Some? ==> j <= r.1.value.coluna < |cols|
    decreases |cols| - j
  {
    if j == |cols| then (rows, None)
    else
      var (novas, e) := ColunaEditada(chaves, cols[j], rows, idx, j, vals[j], floatOk);
      if e.Some? then (novas, e) else EdicaoDesde(chaves, cols, novas, idx, vals, floatOk, j + 1)
  }

  /**
   * salvar_edicao over the whole form. The edit stops exactly when some
   * column, judged against the table as it was before the edit, does not
   * pass; it stops at the first such column, for that column's reason.
   */
  function Edicao(chaves: seq<string>, cols: seq<string>, rows: seq<Linha>, idx: nat, form: seq<string>,
                  floatOk: string -> bool)
    : (r: (seq<Linha>, Option<ErroPlanilha>))
    requires |form| == |cols| && idx < |rows| && |rows[idx]| == |cols|
    ensures |r.0| == |rows| && |r.0[idx]| == |cols|
    ensures var vals := Entradas(cols, form);
      r.1.None? <==> forall i :: 0 <= i < |cols| ==> ColunaEditada(chaves, cols[i], rows, idx, i, vals[i], floatOk).1.None?
    ensures var vals := Entradas(cols, form);
      r.1.Some? ==> var k := r.1.value.coluna;
        && k < |cols|
        && ColunaEditada(chaves, cols[k], rows, idx, k, vals[k], floatOk).1 == r.1
        && forall i :: 0 <= i < k ==> ColunaEditada(chaves, cols[i], rows, idx, i, vals[i], floatOk).1.None?
  {
    var vals := Entradas(cols, form);
    EdicaoVeredito(chaves, cols, rows, idx, vals, floatOk, 0, rows);
    EdicaoDesde(chaves, cols, rows, idx, vals, floatOk, 0)
  }

  /** Where the edit from column j on stops: the failing column, or the end. */
  function Parada(chaves: seq<string>, cols: seq<string>, rows: seq<Linha>, idx: nat, vals: seq<string>,
                  floatOk: string -> bool, j: nat): nat
    requires |vals| == |cols| && j <= |cols| && idx < |rows| && |rows[idx]| == |cols|
  {
    var e := EdicaoDesde(chaves, cols, rows, idx, vals, floatOk, j).1;
    if e.Some? then e.value.coluna else |cols|
  }

  /**
   * An edit touches the edited row alone. Up to the column where it
   * stopped, that row holds the new cells; from there on, its old ones.
   */
  lemma {:induction false} EdicaoParcial(chaves: seq<string>, cols: seq<string>, rows: seq<Linha>, idx: nat,
                                         vals: seq<string>, floatOk: string -> bool, j: nat)
    requires |vals| == |cols| && j <= |cols| && idx < |rows| && |rows[idx]| == |cols|
    ensures var fim := EdicaoDesde(chaves, cols, rows, idx, vals, floatOk, j).0;
      var k := Parada(chaves, cols, rows, idx, vals, floatOk, j);
      && j <= k <= |cols|
      && (forall r :: 0 <= r < |rows| && r != idx ==> fim[r] == rows[r])
      && (forall i :: 0 <= i < j ==> fim[idx][i] == rows[idx][i])
      && (forall i :: j <= i < k ==> CelulaEditada(cols[i], vals[i], floatOk) == Some(fim[idx][i]))
      && (forall i :: k <= i < |cols| ==> fim[idx][i] == rows[idx][i])
    decreases |cols| - j
  {
    if j < |cols| {
      var (novas, e) := ColunaEditada(chaves, cols[j], rows, idx, j, vals[j], floatOk);
      if e.None? {
        EdicaoParcial(chaves, cols, novas, idx, vals, floatOk, j + 1);
      }
    }
  }

  /** The two tables have the same shape and agree in every column from j on. */
  ghost predicate IguaisDesde(a: seq<Linha>, b: seq<Linha>, j: nat)
  {
    && |a| == |b|
    && (forall r :: 0 <= r < |a| ==> |a[r]| == |b[r]|)
    && (forall r, i :: 0 <= r < |a| && j <= i < |a[r]| ==> a[r][i] == b[r][i])
  }

  /** Whether column j passes reads column j of the table and nothing else of it. */
  lemma ColunaEditadaLeSoAColuna(chaves: seq<string>, col: string, a: seq<Linha>, b: seq<Linha>, idx: nat, j: nat,
                                 val: string, floatOk: string -> bool)
    requires idx < |a| && j < |a[idx]| && IguaisDesde(a, b, j)
    ensures ColunaEditada(chaves, col, a, idx, j, val, floatOk).1 == ColunaEditada(chaves, col, b, idx, j, val, floatOk).1
  {
    if EmUso(a, j, val) {
      var r :| 0 <= r < |a| && j < |a[r]| && CellStr(a[r][j]) == val;
      assert j < |b[r]| && CellStr(b[r][j]) == val;
    }
    if EmUso(b, j, val) {
      var r :| 0 <= r < |b| && j < |b[r]| && CellStr(b[r][j]) == val;
      assert j < |a[r]| && CellStr(a[r][j]) == val;
    }
  }

  /**
   * Each column of an edit is judged on the table the earlier columns left,
   * but those only wrote earlier columns of the edited row: so the verdict
   * is the one each column gets against any table that agrees from j on,
   * the table before the edit among them.
   */
  lemma {:induction false} EdicaoVeredito(chaves: seq<string>, cols: seq<string>, rows: seq<Linha>, idx: nat,
                                          vals: seq<string>, floatOk: string -> bool, j: nat, orig: seq<Linha>)
    requires |vals| == |cols| && j <= |cols| && idx < |rows| && |rows[idx]| == |cols|
    requires IguaisDesde(rows, orig, j)
    ensures var e := EdicaoDesde(chaves, cols, rows, idx, vals, floatOk, j).1;
      && (e.None? <==> forall i :: j <= i < |cols| ==> ColunaEditada(chaves, cols[i], orig, idx, i, vals[i], floatOk).1.None?)
      && (e.Some? ==> var k := e.value.coluna;
            && ColunaEditada(chaves, cols[k], orig, idx, k, vals[k], floatOk).1 == e
            && forall i :: j <= i < k ==> ColunaEditada(chaves, cols[i], orig, idx, i, vals[i], floatOk).1.None?)
    decreases |cols| - j
  {
    if j < |cols| {
      ColunaEditadaLeSoAColuna(chaves, cols[j], rows, orig, idx, j, vals[j], floatOk);
      var (novas, e) := ColunaEditada(chaves, cols[j], rows, idx, j, vals[j], floatOk);
      if e.None? {
        assert IguaisDesde(novas, orig, j + 1);
        EdicaoVeredito(chaves, cols, novas, idx, vals, floatOk, j + 1, orig);
        var fim := EdicaoDesde(chaves, cols, novas, idx, vals, floatOk, j + 1).1;
        assert EdicaoDesde(chaves, cols, rows, idx, vals, floatOk, j).1 == fim;
        if fim.Some? {
          var k := fim.value.coluna;
          assert ColunaEditada(chaves, cols[k], orig, idx, k, vals[k], floatOk).1.Some?;
          forall i | j <= i < k ensures ColunaEditada(chaves, cols[i], orig, idx, i, vals[i], floatOk).1.None? {
            if i > j {
              assert j + 1 <= i < k;
            }
          }
        } else {
          forall i | j <= i < |cols| ensures ColunaEditada(chaves, cols[i], orig, idx, i, vals[i], floatOk).1.None? {
            if i > j {
              assert j + 1 <= i < |cols|;
            }
          }
        }
      }
    }
  }

  /**
   * As written, an edit that moves a sale to a product another sale already
   * refers to is refused, because the product column is checked like a key.
   */
  lemma EdicaoRecusaProdutoDeOutraVenda(rows: seq<Linha>, idx: nat, val: string, floatOk: string -> bool)
    requires idx < |rows| && |rows[idx]| == |COLUNAS_VENDAS|
    requires IdentificadorRecusado(rows, idx, 1, val)
    ensures ColunaEditada(ID_COLUMNS_EXCEL, COLUNAS_VENDAS[1], rows, idx, 1, val, floatOk) == (rows, Some(JaExiste(1)))
  {
    ColunasDeVenda();
    assert COLUNAS_VENDAS[1] in ID_COLUMNS_EXCEL;
  }

  /** Corrected, the product of a sale can be any product, and it is written as typed. */
  lemma EdicaoCorrigidaAceitaProdutoDeOutraVenda(rows: seq<Linha>, idx: nat, val: string, floatOk: string -> bool)
    requires idx < |rows| && |rows[idx]| == |COLUNAS_VENDAS|
    ensures var (novas, e) := ColunaEditada([COLUNAS_VENDAS[0]], COLUNAS_VENDAS[1], rows, idx, 1, val, floatOk);
      e.None? && novas[idx][1] == Texto(val)
  {
    ColunasDeVenda();
  }

  // ---------------------------------------------------------------------------
  // excluir
  // ---------------------------------------------------------------------------

  /** df.drop of the row at position i followed by reset_index: the rest, renumbered in order. */
  function SemLinha(rows: seq<Linha>, i: nat): (r: seq<Linha>)
    requires i < |rows|
    ensures |r| == |rows| - 1
    ensures forall p :: 0 <= p < i ==> r[p] == rows[p]
    ensures forall p :: i <= p < |r| ==> r[p] == rows[p + 1]
  {
    rows[..i] + rows[i + 1..]
  }

  /** Every row but the deleted one survives, exactly as often as before. */
  lemma SemLinhaMultiset(rows: seq<Linha>, i: nat)
    requires i < |rows|
    ensures multiset(SemLinha(rows, i)) + multiset{rows[i]} == multiset(rows)
  {
    assert rows == rows[..i] + [rows[i]] + rows[i + 1..];
  }

  // ---------------------------------------------------------------------------
  // The low-stock tag
  // ---------------------------------------------------------------------------

  /** The position of a column, if the sheet has it. */
  function Posicao(cols: seq<string>, c: string): (p: Option<nat>)
    ensures p.Some? ==> p.value < |cols| && cols[p.value] == c
    ensures p.Some? ==> forall q :: 0 <= q < p.value ==> cols[q] != c
    ensures p.None? <==> c !in cols
  {
    if cols == [] then None
    else if cols[0] == c then Some(0)
    else match Posicao(cols[1..], c)
      case Some(q) => Some(q + 1)
      case None => None
  }

  /**
   * The tag of one row: only a sheet with a "Quantidade" column tags, and
   * int() of the cell must succeed (None: the exception int() raises).
   */
  function EstoqueBaixo(cols: seq<string>, row: Linha): (b: Option<bool>)
    requires |row| == |cols|
    ensures "Quantidade" !in cols ==> b == Some(false)
    ensures b == Some(true) ==> "Quantidade" in cols
    ensures Posicao(cols, "Quantidade").Some? ==>
      var cell := row[Posicao(cols, "Quantidade").value];
      && (cell.Inteiro? ==> b == Some(cell.n < LOW_STOCK_THRESHOLD))
      && (cell.Texto? ==> (b.Some? <==> ParseInt(cell.s).Some?))
      && (cell.Texto? && b.Some? ==> b.value == (ParseInt(cell.s).value < LOW_STOCK_THRESHOLD))
  {
    match Posicao(cols, "Quantidade")
    case None => Some(false)
    case Some(p) =>
      match row[p]
      case Inteiro(n) => Some(n < LOW_STOCK_THRESHOLD)
      case Texto(s) => (match ParseInt(s) case Some(n) => Some(n < LOW_STOCK_THRESHOLD) case None => None)
      case Decimal(_) => None
  }

  /**
   * The tag is int() of the cell as the list shows it, str() of the cell,
   * compared with the threshold: for an integer cell int(str(n)) gives n
   * back, and a text cell is read as typed.
   */
  lemma EstoqueBaixoPeloTexto(cols: seq<string>, row: Linha)
    requires |row| == |cols| && "Quantidade" in cols
    ensures var cell := row[Posicao(cols, "Quantidade").value];
      var q := ParseInt(CellStr(cell));
      !cell.Decimal? ==>
        && (EstoqueBaixo(cols, row).Some? <==> q.Some?)
        && (q.Some? ==> EstoqueBaixo(cols, row) == Some(q.value < LOW_STOCK_THRESHOLD))
  {
    var cell := row[Posicao(cols, "Quantidade").value];
    if cell.Inteiro? {
      ParseShowInt(cell.n);
    }
  }

  /**
   * The tags of the whole list, row by row; one row whose quantity int()
   * refuses aborts the refresh.
   */
  function Etiquetas(cols: seq<string>, rows: seq<Linha>): (r: Option<seq<bool>>)
    requires forall i :: 0 <= i < |rows| ==> |rows[i]| == |cols|
    ensures r.Some? <==> forall i :: 0 <= i < |rows| ==> EstoqueBaixo(cols, rows[i]).Some?
    ensures r.Some? ==> |r.value| == |rows|
    ensures r.Some? ==> forall i :: 0 <= i < |rows| ==> Some(r.value[i]) == EstoqueBaixo(cols, rows[i])
  {
    if rows == [] then Some([])
    else
      match EstoqueBaixo(cols, rows[0])
      case None => None
      case Some(b) =>
        match Etiquetas(cols, rows[1..])
        case None => None
        case Some(resto) => Some([b] + resto)
  }

  /** The quantity an entry of a new row stands for: nothing typed counts as 0. */
  function QuantidadeDigitada(val: string): (q: Option<int>)
    ensures val == "" ==> q == Some(0)
    ensures val != "" ==> q == ParseInt(val)
  {
    if val == "" then Some(0) else ParseInt(val)
  }

  /**
   * A row built cell by cell by salvar_novo can be tagged, and it is tagged
   * exactly when the quantity typed in is below the threshold.
   */
  lemma EstoqueBaixoDasCelulas(cols: seq<string>, vals: seq<string>, nova: Linha, floatOk: string -> bool)
    requires |vals| == |cols| && |nova| == |cols|
    requires forall i :: 0 <= i < |cols| ==> CelulaNova(cols[i], vals[i], floatOk) == Some(nova[i])
    ensures Posicao(cols, "Quantidade").None? ==> EstoqueBaixo(cols, nova) == Some(false)
    ensures Posicao(cols, "Quantidade").Some? ==>
      var q := QuantidadeDigitada(vals[Posicao(cols, "Quantidade").value]);
      q.Some? && EstoqueBaixo(cols, nova) == Some(q.value < LOW_STOCK_THRESHOLD)
  {
    match Posicao(cols, "Quantidade")
    case None =>
    case Some(p) =>
      assert "Quantidade" in COLUNAS_INTEIRAS;
      assert CelulaNova("Quantidade", vals[p], floatOk) == Some(nova[p]);
  }

  /**
   * Every row salvar_novo adds, whichever columns it checks, can be tagged,
   * by the quantity typed into its form once normalised.
   */
  lemma EstoqueBaixoDaLinhaNova(chaves: seq<string>, cols: seq<string>, rows: seq<Linha>, vals: seq<string>,
                                floatOk: string -> bool)
    requires |vals| == |cols|
    requires NovaLinhaDesde(chaves, cols, rows, vals, floatOk, 0).Success?
    ensures var nova := NovaLinhaDesde(chaves, cols, rows, vals, floatOk, 0).value;
      && (Posicao(cols, "Quantidade").None? ==> EstoqueBaixo(cols, nova) == Some(false))
      && (Posicao(cols, "Quantidade").Some? ==>
            var q := QuantidadeDigitada(vals[Posicao(cols, "Quantidade").value]);
            q.Some? && EstoqueBaixo(cols, nova) == Some(q.value < LOW_STOCK_THRESHOLD))
  {
    var nova := NovaLinhaDesde(chaves, cols, rows, vals, floatOk, 0).value;
    NovaLinhaDesdeCelulas(chaves, cols, rows, vals, floatOk, 0);
    EstoqueBaixoDasCelulas(cols, vals, nova, floatOk);
  }

  /**
   * A sheet of the workbook, as the DataFrame app.py edits in place.
   * `chaves` are the columns whose values salvar_novo and salvar_edicao
   * refuse to repeat: ID_COLUMNS_EXCEL as app.py is written, the sheet's
   * first column once corrected.
   */
  class Folha {
    const cols: seq<string>
    const chaves: seq<string>
    var rows: seq<Linha>

    ghost predicate Valid()
      reads this
    {
      forall i :: 0 <= i < |rows| ==> |rows[i]| == |cols|
    }

    /** The sheet as read from the workbook. */
    constructor (cols: seq<string>, chaves: seq<string>, rows: seq<Linha>)
      requires forall i :: 0 <= i < |rows| ==> |rows[i]| == |cols|
      ensures Valid() && this.cols == cols && this.chaves == chaves && this.rows == rows
    {
      this.cols := cols;
      this.chaves := chaves;
      this.rows := rows;
    }

    /** (df[col].astype(str) == val).any(): a scan of the column. */
    method ValorEmUso(j: nat, val: string) returns (b: bool)
      ensures b == EmUso(rows, j, val)
    {
      var r := 0;
      while r < |rows|
        invariant 0 <= r <= |rows|
        invariant forall s :: 0 <= s < r && j < |rows[s]| ==> CellStr(rows[s][j]) != val
      {
        if j < |rows[r]| && CellStr(rows[r][j]) == val {
          return true;
        }
        r := r + 1;
      }
      return false;
    }

    /** One column of salvar_novo: its duplicate check, if it is an identifier column, then its conversion. */
    method ColunaDoFormulario(j: nat, val: string, floatOk: string -> bool) returns (r: Result<Value, ErroPlanilha>)
      requires j < |cols|
      ensures r == ColunaNova(chaves, cols[j], rows, j, val, floatOk)
    {
      if cols[j] in chaves {
        var emUso := ValorEmUso(j, val);
        if emUso {
          return Failure(JaExiste(j));
        }
      }
      var c := CelulaNova(cols[j], val, floatOk);
      if c.None? {
        return Failure(ValorInvalido(j));
      }
      return Success(c.value);
    }

    /**
     * salvar_novo: normalise, check and convert the entries column by
     * column, then append the row; a refused entry leaves the sheet as it
     * was.
     */
    method SalvarNovo(form: seq<string>, floatOk: string -> bool) returns (r: Result<Linha, ErroPlanilha>)
      requires Valid() && |form| == |cols|
      modifies this
      ensures Valid()
      ensures r == NovaLinhaDesde(chaves, cols, old(rows), Entradas(cols, form), floatOk, 0)
      ensures chaves == ID_COLUMNS_EXCEL ==> r == NovaLinha(cols, old(rows), form, floatOk)
      ensures |cols| > 0 && chaves == [cols[0]] ==> r == NovaLinhaCorrigida(cols, old(rows), form, floatOk)
      ensures rows == if r.Success? then old(rows) + [r.value] else old(rows)
    {
      ghost var vals := Entradas(cols, form);
      ghost var total := NovaLinhaDesde(chaves, cols, rows, vals, floatOk, 0);
      var novo: Linha := [];
      var j := 0;
      assert total == Apos(novo, NovaLinhaDesde(chaves, cols, rows, vals, floatOk, j)) by {
        if total.Success? {
          assert novo + total.value == total.value;
        }
      }
      while j < |cols|
        invariant 0 <= j <= |cols| && |novo| == j && rows == old(rows)
        invariant total == Apos(novo, NovaLinhaDesde(chaves, cols, rows, vals, floatOk, j))
      {
        var val := PadronizarExcel(cols[j], Some(form[j]));
        assert val == vals[j];
        var c := ColunaDoFormulario(j, val, floatOk);
        if c.Failure? {
          return Failure(c.error);
        }
        NovaLinhaPasso(chaves, cols, rows, vals, floatOk, j, novo, c.value);
        novo := novo + [c.value];
        j := j + 1;
      }
      assert novo + [] == novo;
      rows := rows + [novo];
      return Success(novo);
    }

    /** One column of salvar_edicao: convert the entry, check it if it is an identifier, write the cell. */
    method EditarColuna(idx: nat, j: nat, val: string, floatOk: string -> bool) returns (err: Option<ErroPlanilha>)
      requires Valid() && idx < |rows| && j < |cols|
      modifies this
      ensures Valid()
      ensures (rows, err) == ColunaEditada(chaves, cols[j], old(rows), idx, j, val, floatOk)
    {
      var c := CelulaEditada(cols[j], val, floatOk);
      if c.None? {
        return Some(ValorInvalido(j));
      }
      if cols[j] in chaves {
        var emUso := ValorEmUso(j, val);
        if emUso && CellStr(rows[idx][j]) != val {
          return Some(JaExiste(j));
        }
      }
      rows := rows[idx := rows[idx][j := c.value]];
      return None;
    }

    /**
     * salvar_edicao on the row at position idx: each column is converted,
     * checked and written in turn; a refused entry stops the loop and the
     * cells written before it stay in the DataFrame.
     */
    method SalvarEdicao(idx: nat, form: seq<string>, floatOk: string -> bool) returns (err: Option<ErroPlanilha>)
      requires Valid() && idx < |rows| && |form| == |cols|
      modifies this
      ensures Valid()
      ensures (rows, err) == Edicao(chaves, cols, old(rows), idx, form, floatOk)
    {
      ghost var vals := Entradas(cols, form);
      ghost var total := Edicao(chaves, cols, rows, idx, form, floatOk);
      var j := 0;
      assert total == EdicaoDesde(chaves, cols, rows, idx, vals, floatOk, j);
      while j < |cols|
        invariant 0 <= j <= |cols|
        invariant Valid() && idx < |rows|
        invariant total == EdicaoDesde(chaves, cols, rows, idx, vals, floatOk, j)
      {
        var val := PadronizarExcel(cols[j], Some(form[j]));
        assert val == vals[j];
        err := EditarColuna(idx, j, val, floatOk);
        if err.Some? {
          return;
        }
        j := j + 1;
      }
      return None;
    }

    /** excluir: drop the selected row and renumber; without a selection nothing happens. */
    method Excluir(sel: Option<nat>)
      requires Valid() && (sel.Some? ==> sel.value < |rows|)
      modifies this
      ensures Valid()
      ensures rows == if sel.Some? then SemLinha(old(rows), sel.value) else old(rows)
    {
      if sel.Some? {
        rows := SemLinha(rows, sel.value);
      }
    }

    /** atualizar_tree_com_estoque over the sheet: the tag of every row, or None when int() fails. */
    method Etiquetar() returns (tags: Option<seq<bool>>)
      requires Valid()
      ensures tags == Etiquetas(cols, rows)
    {
      var acc: seq<bool> := [];
      var i := 0;
      while i < |rows|
        invariant 0 <= i <= |rows| && |acc| == i
        invariant forall p :: 0 <= p < i ==> EstoqueBaixo(cols, rows[p]) == Some(acc[p])
      {
        var b := EstoqueBaixo(cols, rows[i]);
        if b.None? {
          return None;
        }
        acc := acc + [b.value];
        i := i + 1;
      }
      ghost var todas := Etiquetas(cols, rows);
      assert todas.Some?;
      assert forall p :: 0 <= p < |rows| ==> todas.value[p] == acc[p];
      assert todas.value == acc;
      return Some(acc);
    }
  }
}
