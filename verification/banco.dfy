/**
 * The three tables of the SQLite application as maps from primary key to
 * row, and the operations of app_aprimorado.py that write them: inserting a
 * record (with the stock decrement of a sale), editing one, deleting one
 * (with the stock revert of a sale) and the stock UPDATE itself.
 */
module Banco {
  import opened Wrappers
  import opened PyText
  import opened Padronizar
  import opened Validacao

  /** Products whose stock is below this are tagged "baixo" in the product list. */
  const LOW_STOCK_THRESHOLD: int := 5

  /** The primary-key column of each table, which is its first column. */
  function ColunaChave(t: Tipo): (c: string)
    ensures c in CamposObrigatorios(t)
    ensures c !in CAMPOS_INTEIROS && c !in CAMPOS_DECIMAIS
  {
    match t
    case Produtos => "Codigo Produto"
    case Vendas => "Codigo Venda"
    case Vendedores => "Id Vendedor"
  }

  /** The primary key a row carries. */
  function Chave(t: Tipo, rec: Record): Option<string>
  {
    match Get<Value>(rec, ColunaChave(t))
    case Some(Texto(s)) => Some(s)
    case _ => None
  }

  /** Every row is filed under the key it carries, as the PRIMARY KEY column makes it. */
  ghost predicate ChavesCoerentes(t: Tipo, tabela: map<string, Record>)
  {
    forall k :: k in tabela ==> Chave(t, tabela[k]) == Some(k)
  }

  lemma CoerenteAoRemover(t: Tipo, tabela: map<string, Record>, k: string)
    requires ChavesCoerentes(t, tabela)
    ensures ChavesCoerentes(t, tabela - {k})
  {
  }

  lemma CoerenteAoInserir(t: Tipo, tabela: map<string, Record>, k: string, row: Record)
    requires ChavesCoerentes(t, tabela) && Chave(t, row) == Some(k)
    ensures ChavesCoerentes(t, tabela[k := row])
  {
  }

  /** Writing a column other than the key leaves the key where it was. */
  lemma ChaveAposSet(t: Tipo, row: Record, col: string, v: Value)
    requires col != ColunaChave(t)
    ensures Chave(t, Set(row, col, v)) == Chave(t, row)
  {
  }

  ghost predicate EstoqueNaoNegativo(produtos: map<string, Record>)
  {
    forall k :: k in produtos ==> Quantidade(produtos[k]) >= 0
  }

  ghost predicate VendasPositivas(vendas: map<string, Record>)
  {
    forall k :: k in vendas ==> QntVendida(vendas[k]) > 0
  }

  /** The row a product list shows with the "baixo" tag. */
  predicate EstoqueBaixo(t: Tipo, row: Record)
  {
    t == Produtos && Quantidade(row) < LOW_STOCK_THRESHOLD
  }

  // ---------------------------------------------------------------------------
  // Reading the data dict back
  // ---------------------------------------------------------------------------

  /** Converting the dict keeps each column where it was and converts its first value. */
  lemma {:induction false} GetConvertido(data: Form, floatOk: string -> bool, c: string)
    requires Convertivel(data, floatOk)
    ensures Get(data, c).None? ==> Get(Convertido(data, floatOk), c).None?
    ensures Get(data, c).Some? ==> Get(Convertido(data, floatOk), c) == Converter(c, Get(data, c).value, floatOk)
  {
    if data != [] {
      assert Convertivel(data[1..], floatOk) by {
        forall i | 0 <= i < |data[1..]| ensures Converter(data[1..][i].0, data[1..][i].1, floatOk).Some? {
          assert data[1..][i] == data[i + 1];
        }
      }
      assert Convertido(data, floatOk)[1..] == Convertido(data[1..], floatOk);
      GetConvertido(data[1..], floatOk, c);
    }
  }

  /** The key column is required text, so the converted dict carries the key typed in the form. */
  lemma ChaveDoConvertido(t: Tipo, data: Form, floatOk: string -> bool)
    requires Convertivel(data, floatOk) && !EmBranco(data, ColunaChave(t))
    ensures Chave(t, Convertido(data, floatOk)) == Some(Get(data, ColunaChave(t)).value)
  {
    GetConvertido(data, floatOk, ColunaChave(t));
  }

  /** Every accepted record carries its table's key. */
  lemma ChaveDoRegistroValidado(t: Tipo, data: Form, produtos: map<string, Record>, floatOk: string -> bool)
    requires Validar(t, data, produtos, floatOk).Success?
    ensures Chave(t, Validar(t, data, produtos, floatOk).value) == Some(Get(data, ColunaChave(t)).value)
  {
    ValidacaoAceitaSeESoSe(t, data, produtos, floatOk);
    var campos := CamposObrigatorios(t);
    assert !EmBranco(data, ColunaChave(t)) by {
      var i :| 0 <= i < |campos| && campos[i] == ColunaChave(t);
    }
    ChaveDoConvertido(t, data, floatOk);
  }

  // ---------------------------------------------------------------------------
  // UPDATE statements on a row
  // ---------------------------------------------------------------------------

  /**
   * UPDATE ... SET c1 = v1, c2 = v2, ...: every column the record names
   * takes its value, the other columns keep theirs.
   */
  function Sobrescrever(row: Record, rec: Record): (r: Record)
  {
    if rec == [] then row else Set(Sobrescrever(row, rec[1..]), rec[0].0, rec[0].1)
  }

  lemma {:induction false} GetSobrescrever(row: Record, rec: Record, c: string)
    ensures Get(Sobrescrever(row, rec), c) == if Get(rec, c).Some? then Get(rec, c) else Get(row, c)
  {
    if rec != [] {
      GetSobrescrever(row, rec[1..], c);
    }
  }

  /**
   * UPDATE Produtos SET quantidade = quantidade + delta WHERE codigo_produto
   * = codigo: only that product's quantity moves, by exactly delta, and no
   * row matches when the product does not exist.
   */
  function AjusteEstoque(produtos: map<string, Record>, codigo: string, delta: int): (p: map<string, Record>)
    ensures p.Keys == produtos.Keys
    ensures codigo in produtos ==> Quantidade(p[codigo]) == Quantidade(produtos[codigo]) + delta
    ensures codigo in produtos ==> forall c :: c != "Quantidade" ==> Get(p[codigo], c) == Get(produtos[codigo], c)
    ensures codigo !in produtos ==> p == produtos
    ensures forall k :: k in produtos && k != codigo ==> p[k] == produtos[k]
  {
    if codigo in produtos then
      var row := produtos[codigo];
      produtos[codigo := Set(row, "Quantidade", Inteiro(Quantidade(row) + delta))]
    else produtos
  }

  /** The stock UPDATE never touches a product's code. */
  lemma CoerenteAposAjuste(produtos: map<string, Record>, codigo: string, delta: int)
    requires ChavesCoerentes(Produtos, produtos)
    ensures ChavesCoerentes(Produtos, AjusteEstoque(produtos, codigo, delta))
  {
    if codigo in produtos {
      var linha := produtos[codigo];
      ChaveAposSet(Produtos, linha, "Quantidade", Inteiro(Quantidade(linha) + delta));
      CoerenteAoInserir(Produtos, produtos, codigo, Set(linha, "Quantidade", Inteiro(Quantidade(linha) + delta)));
    }
  }

  /** The product's quantity column holds an integer, as every row saved through the form does. */
  predicate QuantidadeInteira(row: Record)
  {
    Get(row, "Quantidade").Some? && Get(row, "Quantidade").value.Inteiro?
  }

  /** Adding back what was taken out restores the product table exactly. */
  lemma AjusteEstoqueDesfeito(produtos: map<string, Record>, codigo: string, q: int)
    requires codigo in produtos ==> QuantidadeInteira(produtos[codigo])
    ensures AjusteEstoque(AjusteEstoque(produtos, codigo, -q), codigo, q) == produtos
  {
    if codigo in produtos {
      var row := produtos[codigo];
      var n := Quantidade(row);
      SetTwice(row, "Quantidade", Inteiro(n - q), Inteiro(n));
      SetOwnValue(row, "Quantidade");
    }
  }

  /** Several updates of one product's stock add up. */
  lemma {:induction false} AjusteEstoqueSoma(produtos: map<string, Record>, codigo: string, d1: int, d2: int)
    ensures AjusteEstoque(AjusteEstoque(produtos, codigo, d1), codigo, d2) == AjusteEstoque(produtos, codigo, d1 + d2)
  {
    if codigo in produtos {
      var row := produtos[codigo];
      SetTwice(row, "Quantidade", Inteiro(Quantidade(row) + d1), Inteiro(Quantidade(row) + d1 + d2));
    }
  }

  /** A sale the stock can serve leaves the stock non-negative. */
  lemma VendaMantemEstoque(produtos: map<string, Record>, rec: Record)
    requires EstoqueNaoNegativo(produtos)
    requires VendaCabe(rec, produtos)
    ensures EstoqueNaoNegativo(AjusteEstoque(produtos, ProdutoReferido(rec).value, -QntVendida(rec)))
  {
  }

  /** A product tagged low stays tagged after a sale; it becomes tagged exactly when the sale takes it below the threshold. */
  lemma EstoqueBaixoAposVenda(produtos: map<string, Record>, codigo: string, q: nat)
    requires codigo in produtos
    ensures var depois := AjusteEstoque(produtos, codigo, -(q as int))[codigo];
      && (EstoqueBaixo(Produtos, produtos[codigo]) ==> EstoqueBaixo(Produtos, depois))
      && (EstoqueBaixo(Produtos, depois) <==> Quantidade(produtos[codigo]) - q < LOW_STOCK_THRESHOLD)
  {
  }

  // ---------------------------------------------------------------------------
  // The form
  // ---------------------------------------------------------------------------

  /** One entry of new_data: the column, and its text passed through padronizar_texto. */
  function Entrada(e: (string, string)): (string, string)
  {
    (e.0, PadronizarSqlite(e.0, Some(e.1)))
  }

  /** new_data: every entry of the form passed through padronizar_texto. */
  function Padronizado(form: Form): (data: Form)
    ensures |data| == |form|
    ensures forall i :: 0 <= i < |form| ==> data[i].0 == form[i].0 && Stripped(data[i].1)
  {
    seq(|form|, i requires 0 <= i < |form| => Entrada(form[i]))
  }

  /** The loop that collects and normalises the form's entries. */
  method ColetarDados(form: Form) returns (data: Form)
    ensures data == Padronizado(form)
  {
    data := [];
    for i := 0 to |form|
      invariant |data| == i
      invariant forall j :: 0 <= j < i ==> data[j] == Entrada(form[j])
    {
      var (col, texto) := form[i];
      data := data + [(col, PadronizarSqlite(col, Some(texto)))];
    }
  }

  /** What a write operation reports. */
  datatype Resultado =
    | Gravado
    | Rejeitado(erro: Erro)
    | ChaveDuplicada
    | FalhaBanco
    | SemSelecao
    | Cancelado
    | VendaNaoEncontrada

  // ---------------------------------------------------------------------------
  // The three tables and the operations on them
  // ---------------------------------------------------------------------------

  /** The database: Produtos, Vendas and Vendedores, each keyed by its primary key. */
  datatype Tabelas = Tabelas(produtos: map<string, Record>, vendas: map<string, Record>, vendedores: map<string, Record>)

  function Tabela(db: Tabelas, t: Tipo): map<string, Record>
  {
    match t
    case Produtos => db.produtos
    case Vendas => db.vendas
    case Vendedores => db.vendedores
  }

  /** `db` with table `t` replaced by `tabela`. */
  function ComTabela(db: Tabelas, t: Tipo, tabela: map<string, Record>): (r: Tabelas)
    ensures Tabela(r, t) == tabela
    ensures forall u :: u != t ==> Tabela(r, u) == Tabela(db, u)
  {
    match t
    case Produtos => db.(produtos := tabela)
    case Vendas => db.(vendas := tabela)
    case Vendedores => db.(vendedores := tabela)
  }

  ghost predicate Coerente(db: Tabelas)
  {
    && ChavesCoerentes(Produtos, db.produtos)
    && ChavesCoerentes(Vendas, db.vendas)
    && ChavesCoerentes(Vendedores, db.vendedores)
  }

  /**
   * The INSERT of a validated record and, for a sale, the stock UPDATE
   * after it: the INSERT fails on a key already present (the PRIMARY KEY
   * constraint) or on a database fault; a stored sale then takes its
   * quantity out of its product.
   */
  function Inserir(db: Tabelas, t: Tipo, rec: Record, falhaBanco: bool): (Resultado, Tabelas)
    requires Chave(t, rec).Some?
    requires t == Vendas ==> ProdutoReferido(rec).Some?
  {
    var k := Chave(t, rec).value;
    if k in Tabela(db, t) then (ChaveDuplicada, db)
    else if falhaBanco then (FalhaBanco, db)
    else
      var inserido := ComTabela(db, t, Tabela(db, t)[k := rec]);
      if t == Vendas then
        (Gravado, inserido.(produtos := AjusteEstoque(inserido.produtos, ProdutoReferido(rec).value, -QntVendida(rec))))
      else (Gravado, inserido)
  }

  /** _salvar_registro: normalise the form, validate it against the current products, then INSERT. */
  function Registrar(db: Tabelas, t: Tipo, form: Form, floatOk: string -> bool, falhaBanco: bool): (Resultado, Tabelas)
  {
    var data := Padronizado(form);
    match Validar(t, data, db.produtos, floatOk)
    case Failure(e) => (Rejeitado(e), db)
    case Success(rec) =>
      ChaveDoRegistroValidado(t, data, db.produtos, floatOk);
      if t == Vendas then
        VendaAceitaCabeNoEstoque(data, db.produtos, floatOk);
        Inserir(db, t, rec, falhaBanco)
      else Inserir(db, t, rec, falhaBanco)
  }

  /**
   * The UPDATE of _salvar_edicao: the row whose key is pk gets every column
   * of the record, its key column included. An UPDATE that matches no row
   * succeeds and changes nothing; moving a row onto a key another row holds
   * violates the PRIMARY KEY. The stock is not part of the statement.
   */
  function Atualizar(db: Tabelas, t: Tipo, rec: Record, pk: string, falhaBanco: bool): (Resultado, Tabelas)
    requires Chave(t, rec).Some?
  {
    var k := Chave(t, rec).value;
    var tabela := Tabela(db, t);
    if falhaBanco then (FalhaBanco, db)
    else if pk !in tabela then (Gravado, db)
    else if k != pk && k in tabela then (ChaveDuplicada, db)
    else (Gravado, ComTabela(db, t, (tabela - {pk})[k := Sobrescrever(tabela[pk], rec)]))
  }

  /** _salvar_edicao: normalise the form, validate it, then UPDATE the row with key pk. */
  function Editar(db: Tabelas, t: Tipo, form: Form, pk: string, floatOk: string -> bool, falhaBanco: bool)
    : (Resultado, Tabelas)
  {
    var data := Padronizado(form);
    match Validar(t, data, db.produtos, floatOk)
    case Failure(e) => (Rejeitado(e), db)
    case Success(rec) =>
      ChaveDoRegistroValidado(t, data, db.produtos, floatOk);
      Atualizar(db, t, rec, pk, falhaBanco)
  }

  /** The stock UPDATE that gives a deleted sale's quantity back to its product. */
  function Reverter(db: Tabelas, venda: Record): Tabelas
  {
    match ProdutoReferido(venda)
    case Some(codigo) => db.(produtos := AjusteEstoque(db.produtos, codigo, QntVendida(venda)))
    case None => db
  }

  /**
   * _excluir_registro: without a selection or a confirmation nothing
   * happens; a sale's quantity goes back to its product first (a sale
   * missing from the cached table raises before that), then the DELETE
   * runs, and a DELETE that fails does not undo the stock change.
   */
  function Excluir(db: Tabelas, t: Tipo, sel: Option<string>, confirmado: bool, falhaBanco: bool): (Resultado, Tabelas)
  {
    if sel.None? then (SemSelecao, db)
    else if !confirmado then (Cancelado, db)
    else
      var pk := sel.value;
      if t == Vendas && pk !in db.vendas then (VendaNaoEncontrada, db)
      else
        var revertido := if t == Vendas then Reverter(db, db.vendas[pk]) else db;
        if falhaBanco then (FalhaBanco, revertido)
        else (Gravado, ComTabela(revertido, t, Tabela(revertido, t) - {pk}))
  }

  // ---------------------------------------------------------------------------
  // What the operations promise
  // ---------------------------------------------------------------------------

  /** The record a form yields once normalised and validated, if any. */
  function Validado(db: Tabelas, t: Tipo, form: Form, floatOk: string -> bool): Result<Record, Erro>
  {
    Validar(t, Padronizado(form), db.produtos, floatOk)
  }

  /** A refused form changes nothing; an accepted one goes on to the INSERT with the validated record. */
  lemma RegistrarEtapas(db: Tabelas, t: Tipo, form: Form, floatOk: string -> bool, falhaBanco: bool)
    ensures var v := Validado(db, t, form, floatOk);
      && (v.Failure? ==> Registrar(db, t, form, floatOk, falhaBanco) == (Rejeitado(v.error), db))
      && (v.Success? ==>
            && Chave(t, v.value).Some?
            && (t == Vendas ==> VendaCabe(v.value, db.produtos))
            && Registrar(db, t, form, floatOk, falhaBanco) == Inserir(db, t, v.value, falhaBanco))
  {
    var data := Padronizado(form);
    var v := Validar(t, data, db.produtos, floatOk);
    if v.Success? {
      ChaveDoRegistroValidado(t, data, db.produtos, floatOk);
      if t == Vendas {
        VendaAceitaCabeNoEstoque(data, db.produtos, floatOk);
      }
      assert Registrar(db, t, form, floatOk, falhaBanco) == Inserir(db, t, v.value, falhaBanco);
    } else {
      assert Registrar(db, t, form, floatOk, falhaBanco) == (Rejeitado(v.error), db);
    }
  }

  /** A refused form changes nothing; an accepted one goes on to the UPDATE with the validated record. */
  lemma EditarEtapas(db: Tabelas, t: Tipo, form: Form, pk: string, floatOk: string -> bool, falhaBanco: bool)
    ensures var v := Validado(db, t, form, floatOk);
      && (v.Failure? ==> Editar(db, t, form, pk, floatOk, falhaBanco) == (Rejeitado(v.error), db))
      && (v.Success? ==>
            && Chave(t, v.value).Some?
            && (t == Vendas ==> VendaCabe(v.value, db.produtos))
            && Editar(db, t, form, pk, floatOk, falhaBanco) == Atualizar(db, t, v.value, pk, falhaBanco))
  {
    var data := Padronizado(form);
    var v := Validar(t, data, db.produtos, floatOk);
    if v.Success? {
      ChaveDoRegistroValidado(t, data, db.produtos, floatOk);
      if t == Vendas {
        VendaAceitaCabeNoEstoque(data, db.produtos, floatOk);
      }
      assert Editar(db, t, form, pk, floatOk, falhaBanco) == Atualizar(db, t, v.value, pk, falhaBanco);
    } else {
      assert Editar(db, t, form, pk, floatOk, falhaBanco) == (Rejeitado(v.error), db);
    }
  }

  /**
   * The INSERT refuses exactly a key already present and changes nothing
   * then; a stored record goes in under its own key, and a stored sale
   * takes exactly its quantity out of exactly its product.
   */
  lemma InserirGrava(db: Tabelas, t: Tipo, rec: Record, falhaBanco: bool)
    requires Chave(t, rec).Some? && (t == Vendas ==> ProdutoReferido(rec).Some?)
    ensures var (res, db') := Inserir(db, t, rec, falhaBanco);
      var k := Chave(t, rec).value;
      && (res == ChaveDuplicada <==> k in Tabela(db, t))
      && (res == Gravado <==> k !in Tabela(db, t) && !falhaBanco)
      && (res != Gravado ==> db' == db)
      && (res == Gravado ==>
            && Tabela(db', t) == Tabela(db, t)[k := rec]
            && (forall u :: u != t && u != Produtos ==> Tabela(db', u) == Tabela(db, u))
            && (t == Vendedores ==> db'.produtos == db.produtos)
            && (t == Vendas ==> db'.produtos == AjusteEstoque(db.produtos, ProdutoReferido(rec).value, -QntVendida(rec))))
  {
  }

  /** The tables a stored INSERT leaves: the row under its key and, for a sale, the stock UPDATE after it. */
  lemma InserirGravado(db: Tabelas, t: Tipo, rec: Record)
    requires Chave(t, rec).Some? && (t == Vendas ==> ProdutoReferido(rec).Some?)
    requires Chave(t, rec).value !in Tabela(db, t)
    ensures var inserido := ComTabela(db, t, Tabela(db, t)[Chave(t, rec).value := rec]);
      Inserir(db, t, rec, false).0 == Gravado
      && (t != Vendas ==> Inserir(db, t, rec, false).1 == inserido)
      && (t == Vendas ==> Inserir(db, t, rec, false).1
                            == inserido.(produtos := AjusteEstoque(inserido.produtos, ProdutoReferido(rec).value, -QntVendida(rec))))
  {
  }

  /** A stored sale lowers its product's stock by the quantity sold and leaves every other product alone. */
  lemma RegistrarVenda(db: Tabelas, form: Form, floatOk: string -> bool, falhaBanco: bool)
    requires Registrar(db, Vendas, form, floatOk, falhaBanco).0 == Gravado
    ensures Validado(db, Vendas, form, floatOk).Success?
    ensures var rec := Validado(db, Vendas, form, floatOk).value;
      var db' := Registrar(db, Vendas, form, floatOk, falhaBanco).1;
      && ProdutoReferido(rec).Some? && Chave(Vendas, rec).Some?
      && var pid, q := ProdutoReferido(rec).value, QntVendida(rec);
      && pid in db.produtos && 0 < q <= Quantidade(db.produtos[pid])
      && db'.produtos.Keys == db.produtos.Keys
      && Quantidade(db'.produtos[pid]) == Quantidade(db.produtos[pid]) - q
      && (forall k :: k in db.produtos && k != pid ==> db'.produtos[k] == db.produtos[k])
      && db'.vendas == db.vendas[Chave(Vendas, rec).value := rec]
      && db'.vendedores == db.vendedores
  {
    RegistrarEtapas(db, Vendas, form, floatOk, falhaBanco);
    var rec := Validado(db, Vendas, form, floatOk).value;
    var k, pid, q := Chave(Vendas, rec).value, ProdutoReferido(rec).value, QntVendida(rec);
    assert VendaCabe(rec, db.produtos);
    InserirGrava(db, Vendas, rec, falhaBanco);
    assert k !in db.vendas && !falhaBanco;
    var db' := Inserir(db, Vendas, rec, falhaBanco).1;
    assert Tabela(db', Vendas) == db.vendas[k := rec] && Tabela(db', Vendedores) == db.vendedores;
  }

  /** Selling never drives a stock below zero: the invariant holds across every insert but a product's own. */
  lemma RegistrarMantemEstoque(db: Tabelas, t: Tipo, form: Form, floatOk: string -> bool, falhaBanco: bool)
    requires t != Produtos && EstoqueNaoNegativo(db.produtos)
    ensures EstoqueNaoNegativo(Registrar(db, t, form, floatOk, falhaBanco).1.produtos)
  {
    RegistrarEtapas(db, t, form, floatOk, falhaBanco);
    var v := Validado(db, t, form, floatOk);
    if v.Success? && t == Vendas {
      VendaMantemEstoque(db.produtos, v.value);
    }
  }

  /** Editing a record, a sale included, never moves any stock. */
  lemma EditarNaoMexeNoEstoque(db: Tabelas, t: Tipo, form: Form, pk: string, floatOk: string -> bool, falhaBanco: bool)
    requires t != Produtos
    ensures Editar(db, t, form, pk, floatOk, falhaBanco).1.produtos == db.produtos
  {
    EditarEtapas(db, t, form, pk, floatOk, falhaBanco);
  }

  /**
   * A stored UPDATE moves the row from pk to the record's key, which was
   * pk itself or free, and overwrites the columns the record has; a key
   * held by another row is refused and changes nothing.
   */
  lemma AtualizarGrava(db: Tabelas, t: Tipo, rec: Record, pk: string, falhaBanco: bool)
    requires Chave(t, rec).Some?
    ensures var (res, db') := Atualizar(db, t, rec, pk, falhaBanco);
      var k := Chave(t, rec).value;
      && (res != Gravado ==> db' == db)
      && (res == ChaveDuplicada <==> !falhaBanco && pk in Tabela(db, t) && k != pk && k in Tabela(db, t))
      && (forall u :: u != t ==> Tabela(db', u) == Tabela(db, u))
      && (res == Gravado && pk in Tabela(db, t) ==>
            && (k == pk || k !in Tabela(db, t))
            && Tabela(db', t) == (Tabela(db, t) - {pk})[k := Sobrescrever(Tabela(db, t)[pk], rec)]
            && (forall c :: Get(rec, c).Some? ==> Get(Tabela(db', t)[k], c) == Get(rec, c))
            && (forall c :: Get(rec, c).None? ==> Get(Tabela(db', t)[k], c) == Get(Tabela(db, t)[pk], c)))
  {
    var tabela := Tabela(db, t);
    if pk in tabela {
      forall c ensures Get(Sobrescrever(tabela[pk], rec), c) == if Get(rec, c).Some? then Get(rec, c) else Get(tabela[pk], c) {
        GetSobrescrever(tabela[pk], rec, c);
      }
    }
  }

  /**
   * Deleting a sale gives its quantity back to the product it names (no row
   * changes when that product is gone) and removes that sale alone; when
   * the DELETE fails the sale stays but the stock has already moved.
   */
  lemma ExcluirVenda(db: Tabelas, pk: string, falhaBanco: bool)
    requires pk in db.vendas
    ensures var venda := db.vendas[pk];
      var (res, db') := Excluir(db, Vendas, Some(pk), true, falhaBanco);
      && db'.vendedores == db.vendedores
      && (falhaBanco ==> res == FalhaBanco && db'.vendas == db.vendas)
      && (!falhaBanco ==> res == Gravado && db'.vendas == db.vendas - {pk})
      && db'.produtos.Keys == db.produtos.Keys
      && (ProdutoReferido(venda).Some? && ProdutoReferido(venda).value in db.produtos ==>
            var pid := ProdutoReferido(venda).value;
            && Quantidade(db'.produtos[pid]) == Quantidade(db.produtos[pid]) + QntVendida(venda)
            && (forall k :: k in db.produtos && k != pid ==> db'.produtos[k] == db.produtos[k]))
      && (ProdutoReferido(venda).None? || ProdutoReferido(venda).value !in db.produtos ==> db'.produtos == db.produtos)
  {
  }

  /** Deleting any record cannot make a stock negative: only a sale moves stock, and it gives back a positive amount. */
  lemma ExcluirMantemEstoque(db: Tabelas, t: Tipo, sel: Option<string>, confirmado: bool, falhaBanco: bool)
    requires EstoqueNaoNegativo(db.produtos) && VendasPositivas(db.vendas)
    ensures EstoqueNaoNegativo(Excluir(db, t, sel, confirmado, falhaBanco).1.produtos)
  {
  }

  lemma InserirMantemCoerencia(db: Tabelas, t: Tipo, rec: Record, falhaBanco: bool)
    requires Coerente(db)
    requires Chave(t, rec).Some? && (t == Vendas ==> ProdutoReferido(rec).Some?)
    ensures Coerente(Inserir(db, t, rec, falhaBanco).1)
  {
    var k := Chave(t, rec).value;
    var fim := Inserir(db, t, rec, falhaBanco).1;
    if k in Tabela(db, t) || falhaBanco {
      assert fim == db;
    } else {
      InserirGravado(db, t, rec);
      CoerenteAoInserir(t, Tabela(db, t), k, rec);
      var inserido := ComTabela(db, t, Tabela(db, t)[k := rec]);
      assert Coerente(inserido);
      if t == Vendas {
        var pid, q := ProdutoReferido(rec).value, QntVendida(rec);
        assert inserido.produtos == db.produtos;
        assert fim.produtos == AjusteEstoque(db.produtos, pid, -q);
        CoerenteAposAjuste(db.produtos, pid, -q);
        assert fim.vendas == inserido.vendas && fim.vendedores == inserido.vendedores;
      } else {
        assert fim == inserido;
      }
    }
  }

  lemma AtualizarMantemCoerencia(db: Tabelas, t: Tipo, rec: Record, pk: string, falhaBanco: bool)
    requires Coerente(db)
    requires Chave(t, rec).Some?
    ensures Coerente(Atualizar(db, t, rec, pk, falhaBanco).1)
  {
    var tabela := Tabela(db, t);
    if pk in tabela {
      var k := Chave(t, rec).value;
      GetSobrescrever(tabela[pk], rec, ColunaChave(t));
      CoerenteAoRemover(t, tabela, pk);
      CoerenteAoInserir(t, tabela - {pk}, k, Sobrescrever(tabela[pk], rec));
    }
  }

  lemma ExcluirMantemCoerencia(db: Tabelas, t: Tipo, sel: Option<string>, confirmado: bool, falhaBanco: bool)
    requires Coerente(db)
    ensures Coerente(Excluir(db, t, sel, confirmado, falhaBanco).1)
  {
    if sel.Some? && confirmado {
      var pk := sel.value;
      var revertido := db;
      if t == Vendas && pk in db.vendas {
        var venda := db.vendas[pk];
        if ProdutoReferido(venda).Some? {
          CoerenteAposAjuste(db.produtos, ProdutoReferido(venda).value, QntVendida(venda));
        }
        revertido := Reverter(db, venda);
      }
      CoerenteAoRemover(t, Tabela(revertido, t), pk);
    }
  }

  /** Every operation keeps each row filed under its own key. */
  lemma OperacoesMantemCoerencia(db: Tabelas, t: Tipo, form: Form, pk: string, floatOk: string -> bool, falhaBanco: bool)
    requires Coerente(db)
    ensures Coerente(Registrar(db, t, form, floatOk, falhaBanco).1)
    ensures Coerente(Editar(db, t, form, pk, floatOk, falhaBanco).1)
  {
    RegistrarEtapas(db, t, form, floatOk, falhaBanco);
    EditarEtapas(db, t, form, pk, floatOk, falhaBanco);
    var v := Validado(db, t, form, floatOk);
    if v.Success? {
      InserirMantemCoerencia(db, t, v.value, falhaBanco);
      AtualizarMantemCoerencia(db, t, v.value, pk, falhaBanco);
    }
  }

  /** Inserting a sale that sold a positive amount keeps every sale positive. */
  lemma InserirMantemVendasPositivas(db: Tabelas, t: Tipo, rec: Record, falhaBanco: bool)
    requires VendasPositivas(db.vendas)
    requires Chave(t, rec).Some? && (t == Vendas ==> ProdutoReferido(rec).Some? && QntVendida(rec) > 0)
    ensures VendasPositivas(Inserir(db, t, rec, falhaBanco).1.vendas)
  {
  }

  /** Rewriting a sale with a record that sold a positive amount keeps every sale positive. */
  lemma AtualizarMantemVendasPositivas(db: Tabelas, t: Tipo, rec: Record, pk: string, falhaBanco: bool)
    requires VendasPositivas(db.vendas)
    requires Chave(t, rec).Some? && (t == Vendas ==> QntVendida(rec) > 0)
    ensures VendasPositivas(Atualizar(db, t, rec, pk, falhaBanco).1.vendas)
  {
    if t == Vendas && pk in db.vendas {
      GetSobrescrever(db.vendas[pk], rec, "Qnt Vendida");
    }
  }

  /** Every sale in the table sold a positive amount, and inserts and edits keep it so. */
  lemma OperacoesMantemVendasPositivas(db: Tabelas, t: Tipo, form: Form, pk: string, floatOk: string -> bool, falhaBanco: bool)
    requires VendasPositivas(db.vendas)
    ensures VendasPositivas(Registrar(db, t, form, floatOk, falhaBanco).1.vendas)
    ensures VendasPositivas(Editar(db, t, form, pk, floatOk, falhaBanco).1.vendas)
  {
    RegistrarEtapas(db, t, form, floatOk, falhaBanco);
    EditarEtapas(db, t, form, pk, floatOk, falhaBanco);
    var v := Validado(db, t, form, floatOk);
    if v.Success? {
      InserirMantemVendasPositivas(db, t, v.value, falhaBanco);
      AtualizarMantemVendasPositivas(db, t, v.value, pk, falhaBanco);
    }
  }

  /**
   * Inserting a sale and then deleting it gives back the tables it started
   * from, provided the product's quantity column holds an integer.
   */
  lemma InserirEExcluirVenda(db: Tabelas, rec: Record)
    requires Chave(Vendas, rec).Some? && ProdutoReferido(rec).Some?
    requires Chave(Vendas, rec).value !in db.vendas
    requires ProdutoReferido(rec).value in db.produtos ==> QuantidadeInteira(db.produtos[ProdutoReferido(rec).value])
    ensures var db1 := Inserir(db, Vendas, rec, false).1;
      Excluir(db1, Vendas, Chave(Vendas, rec), true, false) == (Gravado, db)
  {
    var k, pid, q := Chave(Vendas, rec).value, ProdutoReferido(rec).value, QntVendida(rec);
    var db1 := Inserir(db, Vendas, rec, false).1;
    InserirGravado(db, Vendas, rec);
    assert db1 == db.(vendas := db.vendas[k := rec]).(produtos := AjusteEstoque(db.produtos, pid, -q));
    assert db1.vendas[k] == rec;
    AjusteEstoqueDesfeito(db.produtos, pid, q);
    assert Reverter(db1, rec).produtos == db.produtos;
    assert db1.vendas - {k} == db.vendas;
  }

  /** Registering a sale through the form and then deleting it restores every table. */
  lemma RegistrarEExcluirVenda(db: Tabelas, form: Form, floatOk: string -> bool)
    requires forall k :: k in db.produtos ==> QuantidadeInteira(db.produtos[k])
    requires Registrar(db, Vendas, form, floatOk, false).0 == Gravado
    ensures var rec := Validado(db, Vendas, form, floatOk).value;
      var db1 := Registrar(db, Vendas, form, floatOk, false).1;
      Excluir(db1, Vendas, Chave(Vendas, rec), true, false) == (Gravado, db)
  {
    RegistrarEtapas(db, Vendas, form, floatOk, false);
    var rec := Validado(db, Vendas, form, floatOk).value;
    InserirEExcluirVenda(db, rec);
  }
}
