/** Circuit operations as every engine and benchmark writes them. */
module Circuits {

  datatype OperationCode =
    | X | Y | Z | H | S | Sdg | T | Tdg | Rx | Ry | Rz | Cnot | Cz | Swap
    | BitFlipTrajectory | PhaseFlipTrajectory | DepolarizingTrajectory | AmplitudeDampingTrajectory

  /** A floating-point parameter: a number, or an infinity or NaN. */
  datatype Parameter = Finite(value: real) | NonFinite

  datatype Operation = Operation(code: OperationCode, first: nat, second: nat, parameter: Parameter)

  /** A one-qubit operation with the default second operand and parameter. */
  function Gate(code: OperationCode, first: nat): Operation { Operation(code, first, 0, Finite(0.0)) }

  predicate TwoQubit(code: OperationCode) { code == Cnot || code == Cz || code == Swap }

  predicate Rotation(code: OperationCode) { code == Rx || code == Ry || code == Rz }

  predicate Trajectory(code: OperationCode) {
    || code == BitFlipTrajectory || code == PhaseFlipTrajectory
    || code == DepolarizingTrajectory || code == AmplitudeDampingTrajectory
  }

  /** What every engine asks of a unitary operation on so many qubits. */
  predicate Acceptable(op: Operation, qubits: nat) {
    && op.first < qubits
    && (TwoQubit(op.code) ==> op.second < qubits && op.first != op.second)
    && (Rotation(op.code) ==> op.parameter.Finite?)
    && !Trajectory(op.code)
  }
}
