/**
 * testcases/basics/base.py: the checks a NEO transfer's application log
 * must pass, as decoded from the node's `getapplicationlog` response.
 * Base64 decoding is a parameter of the model (None where
 * `base64.b64decode` raises), and so are the NEO and GAS contract hashes,
 * which are constants of the neo3 library.
 */
module Basics {
  import opened Wrappers
  import opened Bytes
  import opened Json
  import T = Testing
  import C = Contract

  type Base64Decoder = string -> Option<seq<Byte>>

  /**
   * The checks of one address slot of a Transfer's state: a ByteString
   * holding the address when one is given, a null (`Any`) slot otherwise.
   */
  predicate AddressSlotOk(slot: Value, address: Option<C.UInt160>, b64decode: Base64Decoder) {
    match address
    case Some(a) =>
      && FieldIs(slot, "type", Str("ByteString"))
      && Contains(slot, "value") == Some(true)
      && Get(slot, "value").Some?
      // `b64decode` of anything but a str raises TypeError
      && Get(slot, "value").value.Str?
      && b64decode(Get(slot, "value").value.s) == Some(a)
    case None => FieldIs(slot, "type", Str("Any"))
  }

  /** The checks of the amount slot: an Integer with a value, equal to `amount` when one is given. */
  predicate AmountSlotOk(slot: Value, amount: Option<string>) {
    && FieldIs(slot, "type", Str("Integer"))
    && Contains(slot, "value") == Some(true)
    && (amount.Some? ==> Get(slot, "value").Some? && PyEq(Get(slot, "value").value, Str(amount.value)))
  }

  /** The slot checks on `state['value']`: three slots, the from and to addresses and the amount. */
  predicate SlotsOk(slots: Value, source: Option<C.UInt160>, dest: Option<C.UInt160>, amount: Option<string>,
                    b64decode: Base64Decoder) {
    && Len(slots) == Some(3)
    && At(slots, 0).Some? && AddressSlotOk(At(slots, 0).value, source, b64decode)
    && At(slots, 1).Some? && AddressSlotOk(At(slots, 1).value, dest, b64decode)
    && At(slots, 2).Some? && AmountSlotOk(At(slots, 2).value, amount)
  }

  /** The checks on `notification['state']`: an Array whose value passes SlotsOk. */
  predicate StateOk(state: Value, source: Option<C.UInt160>, dest: Option<C.UInt160>, amount: Option<string>,
                    b64decode: Base64Decoder) {
    && FieldIs(state, "type", Str("Array"))
    && Contains(state, "value") == Some(true)
    && Get(state, "value").Some?
    && SlotsOk(Get(state, "value").value, source, dest, amount, b64decode)
  }

  /** `_check_nep17_transfer_notification(notification, contract_hash, source, dest, amount)` passes. */
  predicate TransferNotificationOk(notification: Value, contractHash: string, source: Option<C.UInt160>,
                                   dest: Option<C.UInt160>, amount: Option<string>, b64decode: Base64Decoder) {
    && FieldIs(notification, "contract", Str(contractHash))
    && FieldIs(notification, "eventname", Str("Transfer"))
    && Contains(notification, "state") == Some(true)
    && Get(notification, "state").Some?
    && StateOk(Get(notification, "state").value, source, dest, amount, b64decode)
  }

  /** What an address slot check means on the dict it must be. */
  predicate AddressSlotHolds(slot: Value, address: Option<C.UInt160>, b64decode: Base64Decoder) {
    && slot.Object?
    && "type" in slot.fields
    && match address
       case Some(a) =>
         && slot.fields["type"] == Str("ByteString")
         && "value" in slot.fields && slot.fields["value"].Str?
         && b64decode(slot.fields["value"].s) == Some(a)
       case None => slot.fields["type"] == Str("Any")
  }

  predicate AmountSlotHolds(slot: Value, amount: Option<string>) {
    && slot.Object?
    && "type" in slot.fields && slot.fields["type"] == Str("Integer")
    && "value" in slot.fields
    && (amount.Some? ==> slot.fields["value"] == Str(amount.value))
  }

  lemma AddressSlotMeans(slot: Value, address: Option<C.UInt160>, b64decode: Base64Decoder)
    ensures AddressSlotOk(slot, address, b64decode) <==> AddressSlotHolds(slot, address, b64decode)
  {
    FieldIsMeans(slot, "type", Str("ByteString"));
    FieldIsMeans(slot, "type", Str("Any"));
  }

  lemma AmountSlotMeans(slot: Value, amount: Option<string>)
    ensures AmountSlotOk(slot, amount) <==> AmountSlotHolds(slot, amount)
  {
    FieldIsMeans(slot, "type", Str("Integer"));
    if amount.Some? && Get(slot, "value").Some? {
      PyEqStr(Get(slot, "value").value, amount.value);
    }
  }

  predicate SlotsHold(slots: Value, source: Option<C.UInt160>, dest: Option<C.UInt160>, amount: Option<string>,
                      b64decode: Base64Decoder) {
    && slots.Array? && |slots.items| == 3
    && AddressSlotHolds(slots.items[0], source, b64decode)
    && AddressSlotHolds(slots.items[1], dest, b64decode)
    && AmountSlotHolds(slots.items[2], amount)
  }

  /** The slots pass exactly when they are a list of three that hold: a dict or a str of length 3 fails. */
  lemma SlotsMeans(slots: Value, source: Option<C.UInt160>, dest: Option<C.UInt160>, amount: Option<string>,
                   b64decode: Base64Decoder)
    ensures SlotsOk(slots, source, dest, amount, b64decode) <==> SlotsHold(slots, source, dest, amount, b64decode)
  {
    if slots.Array? && |slots.items| == 3 {
      AddressSlotMeans(slots.items[0], source, b64decode);
      AddressSlotMeans(slots.items[1], dest, b64decode);
      AmountSlotMeans(slots.items[2], amount);
    } else if slots.Str? && |slots.s| == 3 {
      // a one-character str is not a dict, so the first slot fails
      AddressSlotMeans(Str([slots.s[0]]), source, b64decode);
    }
  }

  predicate StateHolds(state: Value, source: Option<C.UInt160>, dest: Option<C.UInt160>, amount: Option<string>,
                       b64decode: Base64Decoder) {
    && state.Object?
    && "type" in state.fields && state.fields["type"] == Str("Array")
    && "value" in state.fields
    && SlotsHold(state.fields["value"], source, dest, amount, b64decode)
  }

  /** The state passes exactly when it is an Array dict whose value holds. */
  lemma StateMeans(state: Value, source: Option<C.UInt160>, dest: Option<C.UInt160>, amount: Option<string>,
                   b64decode: Base64Decoder)
    ensures StateOk(state, source, dest, amount, b64decode) <==> StateHolds(state, source, dest, amount, b64decode)
  {
    FieldIsStr(state, "type", "Array");
    if state.Object? && "value" in state.fields {
      SlotsMeans(state.fields["value"], source, dest, amount, b64decode);
    }
  }

  /**
   * A notification passes exactly when it is a dict from the given contract,
   * named Transfer, whose state is an Array of three slots: the from
   * address, the to address and the amount.
   */
  lemma TransferNotificationMeans(notification: Value, contractHash: string, source: Option<C.UInt160>,
                                  dest: Option<C.UInt160>, amount: Option<string>, b64decode: Base64Decoder)
    ensures TransferNotificationOk(notification, contractHash, source, dest, amount, b64decode) <==>
      && notification.Object?
      && "contract" in notification.fields && notification.fields["contract"] == Str(contractHash)
      && "eventname" in notification.fields && notification.fields["eventname"] == Str("Transfer")
      && "state" in notification.fields
      && StateHolds(notification.fields["state"], source, dest, amount, b64decode)
  {
    FieldIsStr(notification, "contract", contractHash);
    FieldIsStr(notification, "eventname", "Transfer");
    if notification.Object? && "state" in notification.fields {
      StateMeans(notification.fields["state"], source, dest, amount, b64decode);
    }
  }

  /**
   * The checks on `execution['notifications']`: three notifications, the NEO
   * transfer from source to dest, then the GAS minted to source and to dest.
   */
  predicate NotificationsOk(notifications: Value, source: C.UInt160, dest: C.UInt160, amount: Option<string>,
                            neoHash: string, gasHash: string, b64decode: Base64Decoder) {
    && Len(notifications) == Some(3)
    && At(notifications, 0).Some?
    && TransferNotificationOk(At(notifications, 0).value, neoHash, Some(source), Some(dest), amount, b64decode)
    && At(notifications, 1).Some?
    && TransferNotificationOk(At(notifications, 1).value, gasHash, None, Some(source), None, b64decode)
    && At(notifications, 2).Some?
    && TransferNotificationOk(At(notifications, 2).value, gasHash, None, Some(dest), None, b64decode)
  }

  /** The checks on the one execution: `check_execution_result` with the stack `[('Boolean', True)]`, then its notifications. */
  predicate ExecutionOk(execution: Value, source: C.UInt160, dest: C.UInt160, amount: Option<string>,
                        neoHash: string, gasHash: string, b64decode: Base64Decoder) {
    && T.ExecutionResultOk(execution, [("Boolean", Bool(true))], None)
    && Contains(execution, "notifications") == Some(true)
    && Get(execution, "notifications").Some?
    && NotificationsOk(Get(execution, "notifications").value, source, dest, amount, neoHash, gasHash, b64decode)
  }

  /**
   * `_check_neo_transfer_application_log(tx_id, application_log, source, dest, amount)`
   * passes: one HALTed execution returning true, whose three notifications
   * are the NEO transfer and the GAS distributed to the sender and to the
   * receiver.
   */
  predicate NeoTransferLogOk(txId: string, log: Value, source: C.UInt160, dest: C.UInt160, amount: Option<string>,
                             neoHash: string, gasHash: string, b64decode: Base64Decoder) {
    && Contains(log, "txid") == Some(true)
    && Get(log, "txid").Some? && PyEq(Str(txId), Get(log, "txid").value)
    && Contains(log, "executions") == Some(true)
    && Get(log, "executions").Some?
    && ExecutionsOk(Get(log, "executions").value, source, dest, amount, neoHash, gasHash, b64decode)
  }

  /** The checks on `application_log['executions']`: exactly one execution, which passes ExecutionOk. */
  predicate ExecutionsOk(executions: Value, source: C.UInt160, dest: C.UInt160, amount: Option<string>,
                         neoHash: string, gasHash: string, b64decode: Base64Decoder) {
    && Len(executions) == Some(1)
    && At(executions, 0).Some?
    && ExecutionOk(At(executions, 0).value, source, dest, amount, neoHash, gasHash, b64decode)
  }

  predicate NotificationsHold(notifications: Value, source: C.UInt160, dest: C.UInt160, amount: Option<string>,
                              neoHash: string, gasHash: string, b64decode: Base64Decoder) {
    && notifications.Array? && |notifications.items| == 3
    && TransferNotificationOk(notifications.items[0], neoHash, Some(source), Some(dest), amount, b64decode)
    && TransferNotificationOk(notifications.items[1], gasHash, None, Some(source), None, b64decode)
    && TransferNotificationOk(notifications.items[2], gasHash, None, Some(dest), None, b64decode)
  }

  /** The notifications pass exactly when they are a list of three that pass in order. */
  lemma NotificationsMeans(notifications: Value, source: C.UInt160, dest: C.UInt160, amount: Option<string>,
                           neoHash: string, gasHash: string, b64decode: Base64Decoder)
    ensures NotificationsOk(notifications, source, dest, amount, neoHash, gasHash, b64decode) <==>
            NotificationsHold(notifications, source, dest, amount, neoHash, gasHash, b64decode)
  {
    if notifications.Str? && |notifications.s| == 3 {
      // a one-character str is not a dict, so the first notification fails
      FieldIsStr(Str([notifications.s[0]]), "contract", neoHash);
    }
  }

  predicate ExecutionHolds(execution: Value, source: C.UInt160, dest: C.UInt160, amount: Option<string>,
                           neoHash: string, gasHash: string, b64decode: Base64Decoder) {
    && T.ExecutionResultOk(execution, [("Boolean", Bool(true))], None)
    && execution.Object?
    && "notifications" in execution.fields
    && NotificationsHold(execution.fields["notifications"], source, dest, amount, neoHash, gasHash, b64decode)
  }

  /** The execution passes exactly when its result passes and it is a dict whose notifications hold. */
  lemma ExecutionMeans(execution: Value, source: C.UInt160, dest: C.UInt160, amount: Option<string>,
                       neoHash: string, gasHash: string, b64decode: Base64Decoder)
    ensures ExecutionOk(execution, source, dest, amount, neoHash, gasHash, b64decode) <==>
            ExecutionHolds(execution, source, dest, amount, neoHash, gasHash, b64decode)
  {
    T.ExecutionResultMeans(execution, [("Boolean", Bool(true))], None);
    if execution.Object? && "notifications" in execution.fields {
      NotificationsMeans(execution.fields["notifications"], source, dest, amount, neoHash, gasHash, b64decode);
    }
  }

  /** The executions pass exactly when they are a list of one execution that holds. */
  lemma ExecutionsMeans(executions: Value, source: C.UInt160, dest: C.UInt160, amount: Option<string>,
                        neoHash: string, gasHash: string, b64decode: Base64Decoder)
    ensures ExecutionsOk(executions, source, dest, amount, neoHash, gasHash, b64decode) <==>
      && executions.Array? && |executions.items| == 1
      && ExecutionHolds(executions.items[0], source, dest, amount, neoHash, gasHash, b64decode)
  {
    if Len(executions) == Some(1) && At(executions, 0).Some? {
      ExecutionMeans(At(executions, 0).value, source, dest, amount, neoHash, gasHash, b64decode);
    }
  }

  /**
   * The log passes exactly when it is a dict for the transaction with
   * exactly one execution, and that execution holds.
   */
  lemma NeoTransferLogMeans(txId: string, log: Value, source: C.UInt160, dest: C.UInt160, amount: Option<string>,
                            neoHash: string, gasHash: string, b64decode: Base64Decoder)
    ensures NeoTransferLogOk(txId, log, source, dest, amount, neoHash, gasHash, b64decode) <==>
      && log.Object?
      && "txid" in log.fields && log.fields["txid"] == Str(txId)
      && "executions" in log.fields && log.fields["executions"].Array?
      && |log.fields["executions"].items| == 1
      && ExecutionHolds(log.fields["executions"].items[0], source, dest, amount, neoHash, gasHash, b64decode)
  {
    if log.Object? && "txid" in log.fields {
      assert PyEq(Str(txId), log.fields["txid"]) <==> log.fields["txid"] == Str(txId);
    }
    if log.Object? && "executions" in log.fields {
      ExecutionsMeans(log.fields["executions"], source, dest, amount, neoHash, gasHash, b64decode);
    }
  }
}
