/**
 * The SQLite application's write path as it runs: the database object
 * holds the three tables and its methods update them statement by
 * statement. Each method is proved to leave exactly the tables the
 * functions of module Banco describe.
 */
module BancoSqlite {
  import opened Wrappers
  import opened Validacao
  import opened Banco

  class BancoDeDados {
    var produtos: map<string, Record>
    var vendas: map<string, Record>
    var vendedores: map<string, Record>

    function Estado(): Tabelas
      reads this
    {
      Tabelas(produtos, vendas, vendedores)
    }

    ghost predicate Valid()
      reads this
    {
      Coerente(Estado())
    }

    /** The tables as loaded from the database file, every row under its primary key. */
    constructor (db: Tabelas)
      requires Coerente(db)
      ensures Valid() && Estado() == db
    {
      produtos := db.produtos;
      vendas := db.vendas;
      vendedores := db.vendedores;
    }

    /** Replaces one table. */
    method Gravar(t: Tipo, tabela: map<string, Record>)
      modifies this
      ensures Estado() == ComTabela(old(Estado()), t, tabela)
    {
      match t
      case Produtos => produtos := tabela;
      case Vendas => vendas := tabela;
      case Vendedores => vendedores := tabela;
    }

    /**
     * _atualizar_estoque: UPDATE Produtos SET quantidade = quantidade +
     * delta WHERE codigo_produto = codigo.
     */
    method AtualizarEstoque(codigo: string, delta: int)
      requires Valid()
      modifies this
      ensures Valid()
      ensures Estado() == old(Estado()).(produtos := AjusteEstoque(old(produtos), codigo, delta))
    {
      CoerenteAposAjuste(produtos, codigo, delta);
      if codigo in produtos {
        var linha := produtos[codigo];
        produtos := produtos[codigo := Set(linha, "Quantidade", Inteiro(Quantidade(linha) + delta))];
      }
    }

    /** The INSERT of a validated record, then the stock UPDATE of a sale. */
    method Inserir(t: Tipo, rec: Record, falhaBanco: bool) returns (res: Resultado)
      requires Valid()
      requires Chave(t, rec).Some? && (t == Vendas ==> ProdutoReferido(rec).Some?)
      modifies this
      ensures Valid()
      ensures (res, Estado()) == Banco.Inserir(old(Estado()), t, rec, falhaBanco)
    {
      ghost var antes := Estado();
      var k := Chave(t, rec).value;
      if k in Tabela(Estado(), t) {
        assert Banco.Inserir(antes, t, rec, falhaBanco) == (ChaveDuplicada, antes);
        return ChaveDuplicada;
      }
      if falhaBanco {
        assert Banco.Inserir(antes, t, rec, falhaBanco) == (FalhaBanco, antes);
        return FalhaBanco;
      }
      InserirGravado(antes, t, rec);
      CoerenteAoInserir(t, Tabela(antes, t), k, rec);
      Gravar(t, Tabela(Estado(), t)[k := rec]);
      if t == Vendas {
        AtualizarEstoque(ProdutoReferido(rec).value, -QntVendida(rec));
      }
      return Gravado;
    }

    /** _salvar_registro: collect and normalise the form, validate it, INSERT it. */
    method SalvarRegistro(t: Tipo, form: Form, floatOk: string -> bool, falhaBanco: bool) returns (res: Resultado)
      requires Valid()
      modifies this
      ensures Valid()
      ensures (res, Estado()) == Registrar(old(Estado()), t, form, floatOk, falhaBanco)
    {
      RegistrarEtapas(Estado(), t, form, floatOk, falhaBanco);
      var data := ColetarDados(form);
      var v := ValidarDados(t, data, produtos, floatOk);
      if v.Failure? {
        return Rejeitado(v.error);
      }
      res := Inserir(t, v.value, falhaBanco);
    }

    /** The UPDATE of _salvar_edicao for a validated record. */
    method Atualizar(t: Tipo, rec: Record, pk: string, falhaBanco: bool) returns (res: Resultado)
      requires Valid()
      requires Chave(t, rec).Some?
      modifies this
      ensures Valid()
      ensures (res, Estado()) == Banco.Atualizar(old(Estado()), t, rec, pk, falhaBanco)
    {
      AtualizarMantemCoerencia(Estado(), t, rec, pk, falhaBanco);
      var k := Chave(t, rec).value;
      if falhaBanco {
        return FalhaBanco;
      }
      var tabela := Tabela(Estado(), t);
      if pk !in tabela {
        return Gravado;
      }
      if k != pk && k in tabela {
        return ChaveDuplicada;
      }
      Gravar(t, (tabela - {pk})[k := Sobrescrever(tabela[pk], rec)]);
      return Gravado;
    }

    /** _salvar_edicao: collect and normalise the form, validate it, UPDATE the row with key pk. */
    method SalvarEdicao(t: Tipo, form: Form, pk: string, floatOk: string -> bool, falhaBanco: bool)
      returns (res: Resultado)
      requires Valid()
      modifies this
      ensures Valid()
      ensures (res, Estado()) == Editar(old(Estado()), t, form, pk, floatOk, falhaBanco)
    {
      EditarEtapas(Estado(), t, form, pk, floatOk, falhaBanco);
      var data := ColetarDados(form);
      var v := ValidarDados(t, data, produtos, floatOk);
      if v.Failure? {
        return Rejeitado(v.error);
      }
      res := Atualizar(t, v.value, pk, falhaBanco);
    }

    /**
     * _excluir_registro: selection, confirmation, the stock revert of a
     * sale, then the DELETE.
     */
    method ExcluirRegistro(t: Tipo, sel: Option<string>, confirmado: bool, falhaBanco: bool) returns (res: Resultado)
      requires Valid()
      modifies this
      ensures Valid()
      ensures (res, Estado()) == Excluir(old(Estado()), t, sel, confirmado, falhaBanco)
    {
      ExcluirMantemCoerencia(Estado(), t, sel, confirmado, falhaBanco);
      if sel.None? {
        return SemSelecao;
      }
      var pk := sel.value;
      if !confirmado {
        return Cancelado;
      }
      if t == Vendas {
        if pk !in vendas {
          return VendaNaoEncontrada;
        }
        var qntVendida := QntVendida(vendas[pk]);
        var codProduto := ProdutoReferido(vendas[pk]);
        if codProduto.Some? {
          AtualizarEstoque(codProduto.value, qntVendida);
        }
      }
      if falhaBanco {
        return FalhaBanco;
      }
      Gravar(t, Tabela(Estado(), t) - {pk});
      return Gravado;
    }
  }
}
