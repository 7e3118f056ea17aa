/** The tables of the migrations, their keys and their references, in plain columns. */
module MigrationFacts {
  import opened Common
  import opened TableOrder
  import opened Tables
  import opened Backup

  /** Both rows have the same value in a column, and not NULL. */
  predicate Agree(a: Row, b: Row, c: Column) { c in a && c in b && a[c] == b[c] != Null }

  /** Two rows with different ids stand in each other's way exactly when they agree in the columns of the
      table's unique key. */
  lemma UniqueKeysAre(def: TableDef, t: TableName, a: Row, b: Row)
    requires def.uniques == UniquesOf(t)
    ensures Clash(def, a, b) <==>
            && Agree(a, b, TenantId)
            && match t
               case Contacts => Agree(a, b, Named("channel")) && Agree(a, b, Named("phone"))
               case Conversations => Agree(a, b, Named("channel")) && Agree(a, b, Named("external_id"))
               case Messages => Agree(a, b, Named("channel")) && Agree(a, b, Named("provider_msg_id"))
               case ChannelCredentials => Agree(a, b, Named("channel"))
               case WhatsappAccountState => Agree(a, b, Named("jid"))
               case WhatsappSessionKeys => Agree(a, b, Named("jid"))
               case WhatsappHistory => Agree(a, b, Named("jid")) && Agree(a, b, Named("msg_id"))
               case _ => false
  {
    if UniquesOf(t) != [] {
      var u := UniquesOf(t)[0];
      assert u in def.uniques;
      assert Clash(def, a, b) <==> SameKey(u, a, b);
      assert TenantId in u;
      assert forall c :: c in u ==> (Agree(a, b, c) <==> c in a && c in b && a[c] != Null && a[c] == b[c]);
    }
  }

  /** The column of each row of the child is the id of a row of the parent. */
  predicate Refers(db: Db, child: TableName, column: string, parent: TableName) {
    && child in db && parent in db
    && forall k :: k in db[child] ==> Named(column) in db[child][k] && db[child][k][Named(column)] in db[parent]
  }

  /** Nothing dangles: each conversation has its contact, each message its conversation and its contact. */
  lemma ClosedIs(schema: Schema, db: Db)
    requires IsTyped(schema, db) && schema.refs == REFERENCES
    ensures Closed(schema, db) <==>
            && Refers(db, Conversations, "contact_id", Contacts)
            && Refers(db, Messages, "conversation_id", Conversations)
            && Refers(db, Messages, "contact_id", Contacts)
  {
    HoldsIs(schema, db, REFERENCES[0], Conversations, "contact_id", Contacts);
    HoldsIs(schema, db, REFERENCES[1], Messages, "conversation_id", Conversations);
    HoldsIs(schema, db, REFERENCES[2], Messages, "contact_id", Contacts);
    forall r | r in schema.refs ensures r == REFERENCES[0] || r == REFERENCES[1] || r == REFERENCES[2] {
      IsOneOfThree(r);
    }
  }

  lemma HoldsIs(schema: Schema, db: Db, r: Reference, child: TableName, column: string, parent: TableName)
    requires IsTyped(schema, db) && r in schema.refs && r == Reference(child, Named(column), parent)
    ensures Holds(schema, db, r) <==> Refers(db, child, column, parent)
  {
    assert IsReference(schema, r);
  }

  /** The backup covers nine tables; a restore takes lines of seven of them. */
  lemma NineTables(t: TableName)
    ensures t in BACKUPABLE <==> !t.Other?
    ensures Restorable(t) <==> !t.Other? && t != ChannelCredentials && t != WhatsappSessionKeys
  {
    assert BACKUPABLE[0] == Contacts && BACKUPABLE[1] == Conversations && BACKUPABLE[2] == Messages;
    assert BACKUPABLE[3] == InboundEvents && BACKUPABLE[4] == OutboundEvents && BACKUPABLE[5] == ChannelCredentials;
    assert BACKUPABLE[6] == WhatsappAccountState && BACKUPABLE[7] == WhatsappSessionKeys;
    assert BACKUPABLE[8] == WhatsappHistory;
  }

  /** A stream with a malformed line, or one of the two tables of key material, or one of no known table,
      is refused, whatever else it holds. */
  lemma OneBadLineRefuses(
    schema: Schema, codec: Codec, made: Generated, tenant: Value, db: Db, lines: seq<Line>, n: nat)
    requires IsDb(schema, db) && n < |lines|
    requires lines[n].Malformed?
             || (lines[n].Record? && lines[n].table.Some?
                 && (lines[n].table.value.Other? || lines[n].table.value in {ChannelCredentials, WhatsappSessionKeys}))
    ensures Restored(schema, codec, made, tenant, db, lines) == None
  {
    assert lines[n] in lines;
  }
}
